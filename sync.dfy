/**
 * `leetkick sync`: brings the configuration files of a language workspace up to date with
 * the template store. Each configuration file of the language's template directory is
 * copied when the workspace lacks it or holds different content; `biome.json` is deleted
 * once the ESLint and Prettier configurations are present; a dry run only reports.
 */
module Sync {
  import opened Wrappers
  import opened Strings
  import opened FileSystem
  import Templates
  import Workspace

  /** The three lists a sync of one language reports. */
  datatype SyncResult = SyncResult(updated: seq<string>, added: seq<string>, removed: seq<string>)

  predicate Distinct(s: seq<string>) {
    forall i, j :: 0 <= i < j < |s| ==> s[i] != s[j]
  }

  // ---------------------------------------------------------------------------
  // Which files are synced
  // ---------------------------------------------------------------------------

  /** isTemplateFile: per-problem templates, which sync leaves alone. */
  predicate IsTemplateFile(name: string) {
    Contains(name, "_template.") || StartsWith(name, "exercise_") || StartsWith(name, "test_")
  }

  /** Everything initialisation skips as a template, sync skips too. */
  lemma ProblemTemplatesAreTemplateFiles(name: string)
    requires Templates.IsProblemTemplate(name)
    ensures IsTemplateFile(name)
  {
  }

  /** The configuration files of a template directory: its regular files that are not templates. */
  function ConfigNames(files: map<Path, string>, tmpl: Path): (r: set<string>)
    ensures forall n :: n in r <==> tmpl + [n] in files && !IsTemplateFile(n)
  {
    set n | n in FileNames(files, tmpl) && !IsTemplateFile(n)
  }

  /** `names` lists each configuration file of `tmpl` once. */
  ghost predicate IsConfigList(names: seq<string>, files: map<Path, string>, tmpl: Path) {
    Distinct(names) && forall n :: n in names <==> n in ConfigNames(files, tmpl)
  }

  /**
   * getConfigFiles: the regular, non-template entries of the template directory, in listing
   * order; an unreadable directory is an error.
   */
  method GetConfigFiles(h: Host, tmpl: Path) returns (r: Result<seq<string>>)
    requires h.Valid()
    ensures r.Success? <==> tmpl in h.dirs
    ensures r.Success? ==> IsConfigList(r.value, h.files, tmpl)
  {
    var entries := h.ReadDir(tmpl);
    if entries.Failure? {
      return Failure(entries.error);
    }
    var es := entries.value;
    var names: seq<string> := [];
    for i := 0 to |es|
      invariant forall n :: n in names <==> ListedConfig(es, i, n)
      invariant Distinct(names)
    {
      ListedConfigStep(es, i);
      if !es[i].isDirectory && !IsTemplateFile(es[i].name) {
        names := names + [es[i].name];
      }
    }
    ConfigListFromListing(es, h.files, h.dirs, tmpl, names);
    r := Success(names);
  }

  /** Among the first `i` entries, `n` names a regular file that is not a template. */
  ghost predicate ListedConfig(es: seq<DirEntry>, i: int, n: string) {
    exists k :: 0 <= k < i && k < |es| && es[k].name == n && !es[k].isDirectory && !IsTemplateFile(n)
  }

  lemma ListedConfigStep(es: seq<DirEntry>, i: nat)
    requires i < |es| && forall a, b :: 0 <= a < b < |es| ==> es[a].name != es[b].name
    ensures !ListedConfig(es, i, es[i].name)
    ensures forall n :: ListedConfig(es, i + 1, n) <==>
      ListedConfig(es, i, n) || (n == es[i].name && !es[i].isDirectory && !IsTemplateFile(n))
  {
  }

  lemma ConfigListFromListing(es: seq<DirEntry>, files: map<Path, string>, dirs: set<Path>, tmpl: Path, names: seq<string>)
    requires files.Keys !! dirs && IsListing(es, files, dirs, tmpl) && Distinct(names)
    requires forall n :: n in names <==> ListedConfig(es, |es|, n)
    ensures IsConfigList(names, files, tmpl)
  {
    forall n
      ensures n in names <==> n in ConfigNames(files, tmpl)
    {
      ChildNamesMembership(files, dirs, tmpl, n);
      if n in names {
        var k :| 0 <= k < |es| && es[k].name == n && !es[k].isDirectory && !IsTemplateFile(n);
        assert es[k] in es;
      }
      if n in ConfigNames(files, tmpl) {
        var e :| e in es && e.name == n;
        var k :| 0 <= k < |es| && es[k] == e;
      }
    }
  }

  /**
   * shouldSyncFile: an absent target is synced, a target and source that both read as the
   * same text are not, and anything that cannot be read is synced.
   */
  predicate ShouldSync(files: map<Path, string>, src: Path, dst: Path) {
    !(dst in files && src in files && files[src] == files[dst])
  }

  method ShouldSyncFile(h: Host, src: Path, dst: Path) returns (b: bool)
    ensures b == ShouldSync(h.files, src, dst)
  {
    if !Exists(h.files, h.dirs, dst) {
      return true;
    }
    var source := h.ReadFile(src);
    var target := h.ReadFile(dst);
    if source.Failure? || target.Failure? {
      return true;
    }
    b := source.value != target.value;
  }

  // ---------------------------------------------------------------------------
  // The copies
  // ---------------------------------------------------------------------------

  /** The files after copying, in order, each listed file that should be synced, judged on `files`. */
  function Copied(files: map<Path, string>, tmpl: Path, lang: Path, names: seq<string>): map<Path, string>
    decreases |names|
  {
    if |names| == 0 then files
    else
      var n := names[|names| - 1];
      var c := Copied(files, tmpl, lang, names[..|names| - 1]);
      if ShouldSync(files, tmpl + [n], lang + [n]) && tmpl + [n] in files then c[lang + [n] := files[tmpl + [n]]]
      else c
  }

  /** Copying touches only the workspace copies of the listed names. */
  lemma {:induction false} CopiedOutside(files: map<Path, string>, tmpl: Path, lang: Path, names: seq<string>, p: Path)
    requires forall m :: m in names ==> p != lang + [m]
    ensures (p in Copied(files, tmpl, lang, names) <==> p in files)
    ensures p in files ==> Copied(files, tmpl, lang, names)[p] == files[p]
    decreases |names|
  {
    if |names| > 0 {
      assert forall m :: m in names[..|names| - 1] ==> m in names;
      CopiedOutside(files, tmpl, lang, names[..|names| - 1], p);
    }
  }

  /** After copying, the workspace copy of every listed file holds the template's content. */
  lemma {:induction false} CopiedAt(files: map<Path, string>, tmpl: Path, lang: Path, names: seq<string>, n: string)
    requires Distinct(names) && n in names && tmpl + [n] in files
    ensures lang + [n] in Copied(files, tmpl, lang, names)
    ensures Copied(files, tmpl, lang, names)[lang + [n]] == files[tmpl + [n]]
    decreases |names|
  {
    var init := names[..|names| - 1];
    var last := names[|names| - 1];
    if n == last {
      if !ShouldSync(files, tmpl + [n], lang + [n]) {
        assert n !in init;
        NotAmong(lang, init, n);
        CopiedOutside(files, tmpl, lang, init, lang + [n]);
      }
    } else {
      assert names == init + [last];
      assert n in init;
      CopiedAt(files, tmpl, lang, init, n);
      assert lang + [last] != lang + [n] by { assert (lang + [last])[|lang|] != (lang + [n])[|lang|]; }
    }
  }

  /** Distinct names give distinct paths in one directory. */
  lemma NotAmong(dir: Path, names: seq<string>, n: string)
    requires n !in names
    ensures forall m :: m in names ==> dir + [n] != dir + [m]
  {
    forall m | m in names
      ensures dir + [n] != dir + [m]
    {
      assert (dir + [m])[|dir|] == m;
    }
  }

  /** Nothing to sync leaves the files as they are. */
  lemma {:induction false} CopiedNothing(files: map<Path, string>, tmpl: Path, lang: Path, names: seq<string>)
    requires forall n :: n in names ==> !ShouldSync(files, tmpl + [n], lang + [n])
    ensures Copied(files, tmpl, lang, names) == files
    decreases |names|
  {
    if |names| > 0 {
      assert forall m :: m in names[..|names| - 1] ==> m in names;
      CopiedNothing(files, tmpl, lang, names[..|names| - 1]);
    }
  }

  /** Every copy sync has to make has a parent directory to go into and no directory in the way. */
  ghost predicate CopiesSucceed(files: map<Path, string>, dirs: set<Path>, tmpl: Path, lang: Path) {
    forall n :: n in ConfigNames(files, tmpl) && ShouldSync(files, tmpl + [n], lang + [n]) ==>
      Writable(files, dirs, lang + [n])
  }

  ghost predicate CopiedSoFar(files: map<Path, string>, dirs: set<Path>, tmpl: Path, lang: Path, names: seq<string>) {
    forall n :: n in names && ShouldSync(files, tmpl + [n], lang + [n]) ==> Writable(files, dirs, lang + [n])
  }

  /** The names that land in `added`: configuration files the workspace does not have. */
  function AddedNames(files: map<Path, string>, dirs: set<Path>, tmpl: Path, lang: Path): set<string> {
    set n | n in ConfigNames(files, tmpl) && !Exists(files, dirs, lang + [n])
  }

  /** The names that land in `updated`: configuration files the workspace has in another version. */
  function UpdatedNames(files: map<Path, string>, dirs: set<Path>, tmpl: Path, lang: Path): set<string> {
    set n | n in ConfigNames(files, tmpl) && Exists(files, dirs, lang + [n]) && ShouldSync(files, tmpl + [n], lang + [n])
  }

  /** What the state at one step of the loop shows of the next name, read off the state before the loop. */
  lemma CopyStep(o: map<Path, string>, tmpl: Path, lang: Path, names: seq<string>, i: nat)
    requires Distinct(names) && i < |names| && tmpl + [names[i]] in o
    ensures var c := Copied(o, tmpl, lang, names[..i]);
      var n := names[i];
      && (lang + [n] in c <==> lang + [n] in o)
      && (lang + [n] in o ==> c[lang + [n]] == o[lang + [n]])
      && tmpl + [n] in c && c[tmpl + [n]] == o[tmpl + [n]]
      && ShouldSync(c, tmpl + [n], lang + [n]) == ShouldSync(o, tmpl + [n], lang + [n])
      && Copied(o, tmpl, lang, names[..i + 1])
         == if ShouldSync(o, tmpl + [n], lang + [n]) then c[lang + [n] := o[tmpl + [n]]] else c
  {
    var n := names[i];
    assert names[..i + 1][..i] == names[..i];
    assert n !in names[..i];
    NotAmong(lang, names[..i], n);
    CopiedOutside(o, tmpl, lang, names[..i], lang + [n]);
    if tmpl != lang {
      forall m | m in names[..i]
        ensures tmpl + [n] != lang + [m]
      {
        if |tmpl| == |lang| {
          var j :| 0 <= j < |tmpl| && tmpl[j] != lang[j];
          assert (tmpl + [n])[j] != (lang + [m])[j];
        } else {
          assert |tmpl + [n]| != |lang + [m]|;
        }
      }
    }
    CopiedOutside(o, tmpl, lang, names[..i], tmpl + [n]);
  }

  /** `added` and `updated` hold the names among `done` the sync reports, each once. */
  ghost predicate Classified(o: map<Path, string>, dirs: set<Path>, tmpl: Path, lang: Path, done: seq<string>,
                             added: seq<string>, updated: seq<string>) {
    && (forall n :: n in added <==> n in done && !Exists(o, dirs, lang + [n]))
    && (forall n :: n in updated <==> n in done && Exists(o, dirs, lang + [n]) && ShouldSync(o, tmpl + [n], lang + [n]))
    && Distinct(added) && Distinct(updated)
  }

  lemma ClassifiedStep(o: map<Path, string>, dirs: set<Path>, tmpl: Path, lang: Path, names: seq<string>, i: nat,
                       added: seq<string>, updated: seq<string>)
    requires Distinct(names) && i < |names| && Classified(o, dirs, tmpl, lang, names[..i], added, updated)
    requires !Exists(o, dirs, lang + [names[i]]) ==> ShouldSync(o, tmpl + [names[i]], lang + [names[i]])
    ensures var n := names[i];
      var sync := ShouldSync(o, tmpl + [n], lang + [n]);
      var existed := Exists(o, dirs, lang + [n]);
      Classified(o, dirs, tmpl, lang, names[..i + 1],
                 if sync && !existed then added + [n] else added,
                 if sync && existed then updated + [n] else updated)
  {
    assert names[..i + 1] == names[..i] + [names[i]];
    assert names[i] !in names[..i];
  }

  /** One iteration of the copy loop, for a configuration file `n`. */
  method SyncOne(h: Host, tmpl: Path, lang: Path, n: string, dryRun: bool) returns (existed: bool, sync: bool, st: Status)
    requires h.Valid() && tmpl + [n] in h.files
    modifies h
    ensures h.Valid() && h.dirs == old(h.dirs) && h.cwd == old(h.cwd)
    ensures existed == Exists(old(h.files), old(h.dirs), lang + [n])
    ensures sync == ShouldSync(old(h.files), tmpl + [n], lang + [n])
    ensures st.Done? <==> dryRun || !sync || Writable(old(h.files), old(h.dirs), lang + [n])
    ensures h.files == if sync && !dryRun && st.Done? then old(h.files)[lang + [n] := old(h.files)[tmpl + [n]]] else old(h.files)
  {
    var src, dst := tmpl + [n], lang + [n];
    existed := Exists(h.files, h.dirs, dst);
    sync := ShouldSyncFile(h, src, dst);
    st := Done;
    if sync && !dryRun {
      st := h.CopyFile(src, dst);
    }
  }

  /**
   * The copy loop of syncLanguage: each configuration file that should be synced is copied
   * (unless this is a dry run) and reported as added or updated by whether its target existed.
   */
  method SyncConfigFiles(h: Host, tmpl: Path, lang: Path, names: seq<string>, dryRun: bool)
    returns (added: seq<string>, updated: seq<string>, st: Status)
    requires h.Valid() && IsConfigList(names, h.files, tmpl)
    modifies h
    ensures h.Valid() && h.dirs == old(h.dirs) && h.cwd == old(h.cwd)
    ensures dryRun ==> st.Done? && h.files == old(h.files)
    ensures st.Done? <==> dryRun || CopiesSucceed(old(h.files), old(h.dirs), tmpl, lang)
    ensures st.Done? && !dryRun ==> h.files == Copied(old(h.files), tmpl, lang, names)
    ensures st.Error? ==> exists k :: 0 <= k < |names| && h.files == Copied(old(h.files), tmpl, lang, names[..k])
    ensures st.Done? ==> forall n :: n in added <==> n in AddedNames(old(h.files), old(h.dirs), tmpl, lang)
    ensures st.Done? ==> forall n :: n in updated <==> n in UpdatedNames(old(h.files), old(h.dirs), tmpl, lang)
    ensures st.Done? ==> Distinct(added) && Distinct(updated)
  {
    ghost var o, dirs := h.files, h.dirs;
    var i;
    added, updated, st, i := SyncEach(h, tmpl, lang, names, dryRun);
    if st.Done? {
      assert names[..|names|] == names;
      AllSynced(o, dirs, tmpl, lang, names, added, updated);
    } else {
      assert 0 <= i < |names| && h.files == Copied(o, tmpl, lang, names[..i]);
    }
  }

  /** The state of the sync loop after the first `i` names: the copies made and the names reported. */
  ghost predicate SyncedUpTo(o: map<Path, string>, dirs: set<Path>, tmpl: Path, lang: Path, names: seq<string>, i: nat,
                             dryRun: bool, files: map<Path, string>, added: seq<string>, updated: seq<string>) {
    && i <= |names|
    && files == (if dryRun then o else Copied(o, tmpl, lang, names[..i]))
    && (!dryRun ==> CopiedSoFar(o, dirs, tmpl, lang, names[..i]))
    && Classified(o, dirs, tmpl, lang, names[..i], added, updated)
  }

  /** `list` with `n` appended when `hit` holds. */
  function Recorded(list: seq<string>, n: string, hit: bool): (r: seq<string>)
    ensures forall m :: m in r <==> m in list || (hit && m == n)
  {
    if hit then list + [n] else list
  }

  /** The loop of syncLanguage over the configuration files; `i` is how far it got. */
  method SyncEach(h: Host, tmpl: Path, lang: Path, names: seq<string>, dryRun: bool)
    returns (added: seq<string>, updated: seq<string>, st: Status, i: nat)
    requires h.Valid() && IsConfigList(names, h.files, tmpl)
    modifies h
    ensures h.Valid() && h.dirs == old(h.dirs) && h.cwd == old(h.cwd)
    ensures st.Done? ==> i == |names| && SyncedUpTo(old(h.files), old(h.dirs), tmpl, lang, names, i, dryRun, h.files, added, updated)
    ensures st.Error? ==> i < |names| && h.files == Copied(old(h.files), tmpl, lang, names[..i])
                          && !dryRun && !CopiesSucceed(old(h.files), old(h.dirs), tmpl, lang)
  {
    ghost var o, dirs := h.files, h.dirs;
    added, updated, st := [], [], Done;
    i := 0;
    while i < |names|
      invariant h.Valid() && h.dirs == dirs && h.cwd == old(h.cwd)
      invariant SyncedUpTo(o, dirs, tmpl, lang, names, i, dryRun, h.files, added, updated)
      invariant st.Done?
    {
      var n := names[i];
      ghost var before := h.files;
      SourcePresent(o, tmpl, lang, names, i);
      var existed, sync;
      existed, sync, st := SyncOne(h, tmpl, lang, n, dryRun);
      EntrySynced(o, dirs, tmpl, lang, names, i, dryRun, before, h.files, existed, sync, st.Done?, added, updated);
      if st.Error? {
        return;
      }
      added := Recorded(added, n, sync && !existed);
      updated := Recorded(updated, n, sync && existed);
      i := i + 1;
    }
  }

  /** Once every listed name has been classified, the lists are the added and updated sets. */
  lemma AllSynced(o: map<Path, string>, dirs: set<Path>, tmpl: Path, lang: Path, names: seq<string>,
                  added: seq<string>, updated: seq<string>)
    requires IsConfigList(names, o, tmpl) && Classified(o, dirs, tmpl, lang, names, added, updated)
    ensures forall n :: n in added <==> n in AddedNames(o, dirs, tmpl, lang)
    ensures forall n :: n in updated <==> n in UpdatedNames(o, dirs, tmpl, lang)
    ensures CopiedSoFar(o, dirs, tmpl, lang, names) ==> CopiesSucceed(o, dirs, tmpl, lang)
  {
  }

  /** The template file of the next listed name is still in place before it is synced. */
  lemma SourcePresent(o: map<Path, string>, tmpl: Path, lang: Path, names: seq<string>, i: nat)
    requires IsConfigList(names, o, tmpl) && i < |names|
    ensures tmpl + [names[i]] in o && tmpl + [names[i]] in Copied(o, tmpl, lang, names[..i])
  {
    assert names[i] in names;
    CopyStep(o, tmpl, lang, names, i);
  }

  /** What one iteration of the sync loop leaves, from the state before it. */
  lemma EntrySynced(o: map<Path, string>, dirs: set<Path>, tmpl: Path, lang: Path, names: seq<string>, i: nat,
                    dryRun: bool, before: map<Path, string>, after: map<Path, string>,
                    existed: bool, sync: bool, done: bool, added: seq<string>, updated: seq<string>)
    requires IsConfigList(names, o, tmpl) && i < |names|
    requires SyncedUpTo(o, dirs, tmpl, lang, names, i, dryRun, before, added, updated)
    requires var n := names[i];
      && tmpl + [n] in before
      && existed == Exists(before, dirs, lang + [n])
      && sync == ShouldSync(before, tmpl + [n], lang + [n])
      && (done <==> dryRun || !sync || Writable(before, dirs, lang + [n]))
      && after == if sync && !dryRun && done then before[lang + [n] := before[tmpl + [n]]] else before
    ensures done ==>
      SyncedUpTo(o, dirs, tmpl, lang, names, i + 1, dryRun, after,
                 Recorded(added, names[i], sync && !existed), Recorded(updated, names[i], sync && existed))
    ensures !done ==> !dryRun && after == Copied(o, tmpl, lang, names[..i]) && !CopiesSucceed(o, dirs, tmpl, lang)
  {
    var n := names[i];
    assert n in names;
    CopyStep(o, tmpl, lang, names, i);
    ClassifiedStep(o, dirs, tmpl, lang, names, i, added, updated);
    if done && !dryRun {
      CopiedSoFarStep(o, dirs, tmpl, lang, names, i);
    }
  }

  lemma CopiedSoFarStep(o: map<Path, string>, dirs: set<Path>, tmpl: Path, lang: Path, names: seq<string>, i: nat)
    requires i < |names| && CopiedSoFar(o, dirs, tmpl, lang, names[..i])
    requires ShouldSync(o, tmpl + [names[i]], lang + [names[i]]) ==> Writable(o, dirs, lang + [names[i]])
    ensures CopiedSoFar(o, dirs, tmpl, lang, names[..i + 1])
  {
    assert names[..i + 1] == names[..i] + [names[i]];
  }

  // ---------------------------------------------------------------------------
  // Obsolete files
  // ---------------------------------------------------------------------------

  const BiomeFile: string := "biome.json"

  /** The files sync may delete: only Biome's configuration. */
  const BiomeFiles: seq<string> := [BiomeFile]

  /** Both the ESLint and the Prettier configurations are in the workspace or in the template. */
  predicate LintersPresent(files: map<Path, string>, dirs: set<Path>, tmpl: Path, lang: Path) {
    && (Exists(files, dirs, lang + ["eslint.config.js"]) || Exists(files, dirs, tmpl + ["eslint.config.js"]))
    && (Exists(files, dirs, lang + [".prettierrc"]) || Exists(files, dirs, tmpl + [".prettierrc"]))
  }

  /** getObsoleteFiles over the candidates `cs`: those present once both linters are configured. */
  function ObsoleteAmong(files: map<Path, string>, dirs: set<Path>, tmpl: Path, lang: Path, cs: seq<string>): seq<string>
    decreases |cs|
  {
    if |cs| == 0 then []
    else
      var rest := ObsoleteAmong(files, dirs, tmpl, lang, cs[..|cs| - 1]);
      var f := cs[|cs| - 1];
      if Exists(files, dirs, lang + [f]) && LintersPresent(files, dirs, tmpl, lang) then rest + [f] else rest
  }

  function ObsoleteFiles(files: map<Path, string>, dirs: set<Path>, tmpl: Path, lang: Path): (r: seq<string>)
    ensures r == [] || r == [BiomeFile]
    ensures r == [BiomeFile] <==> Exists(files, dirs, lang + [BiomeFile]) && LintersPresent(files, dirs, tmpl, lang)
  {
    assert BiomeFiles[..0] == [];
    assert ObsoleteAmong(files, dirs, tmpl, lang, []) == [];
    ObsoleteAmong(files, dirs, tmpl, lang, BiomeFiles)
  }

  method GetObsoleteFiles(h: Host, tmpl: Path, lang: Path) returns (obsolete: seq<string>)
    ensures obsolete == ObsoleteFiles(h.files, h.dirs, tmpl, lang)
  {
    obsolete := [];
    for i := 0 to |BiomeFiles|
      invariant obsolete == ObsoleteAmong(h.files, h.dirs, tmpl, lang, BiomeFiles[..i])
    {
      var f := BiomeFiles[i];
      assert BiomeFiles[..i + 1][..i] == BiomeFiles[..i];
      if Exists(h.files, h.dirs, lang + [f]) {
        if LintersPresent(h.files, h.dirs, tmpl, lang) {
          obsolete := obsolete + [f];
        }
      }
    }
    assert BiomeFiles[..|BiomeFiles|] == BiomeFiles;
  }

  /** The workspace paths of `fs`. */
  function PathsIn(lang: Path, fs: seq<string>): set<Path> {
    set f | f in fs :: lang + [f]
  }

  lemma PathsInStep(lang: Path, fs: seq<string>, i: nat)
    requires i < |fs| && Distinct(fs)
    ensures fs[i] in fs && lang + [fs[i]] !in PathsIn(lang, fs[..i])
    ensures fs[..i + 1] == fs[..i] + [fs[i]]
    ensures PathsIn(lang, fs[..i + 1]) == PathsIn(lang, fs[..i]) + {lang + [fs[i]]}
  {
    assert fs[i] !in fs[..i];
    NotAmong(lang, fs[..i], fs[i]);
    assert fs[..i + 1] == fs[..i] + [fs[i]];
  }

  /** Every file of `fs` is a regular file of the workspace. */
  ghost predicate AllFiles(files: map<Path, string>, lang: Path, fs: seq<string>) {
    forall f :: f in fs ==> lang + [f] in files
  }

  /** One iteration of the removal loop, for the workspace path `p`. */
  method RemoveOne(h: Host, p: Path, dryRun: bool) returns (present: bool, st: Status)
    requires h.Valid()
    modifies h
    ensures h.Valid() && h.dirs == old(h.dirs) && h.cwd == old(h.cwd)
    ensures present == Exists(old(h.files), old(h.dirs), p)
    ensures st.Done? <==> dryRun || !present || p in old(h.files)
    ensures h.files == if present && !dryRun && st.Done? then old(h.files) - {p} else old(h.files)
  {
    present := Exists(h.files, h.dirs, p);
    st := Done;
    if present && !dryRun {
      st := h.Unlink(p);
    }
  }

  /** What the state part-way through the removal loop shows of the next obsolete file. */
  lemma RemovalStep(o: map<Path, string>, dirs: set<Path>, lang: Path, fs: seq<string>, i: nat)
    requires i < |fs| && Distinct(fs) && forall f :: f in fs ==> Exists(o, dirs, lang + [f])
    ensures var p, rest := lang + [fs[i]], o - PathsIn(lang, fs[..i]);
      && Exists(rest, dirs, p)
      && (p in rest <==> p in o)
      && rest - {p} == o - PathsIn(lang, fs[..i + 1])
      && (p !in o ==> !AllFiles(o, lang, fs))
      && (AllFiles(o, lang, fs[..i]) && p in o ==> AllFiles(o, lang, fs[..i + 1]))
  {
    PathsInStep(lang, fs, i);
    assert fs[i] in fs;
  }

  /**
   * The removal loop of syncLanguage: every obsolete file still present is deleted (unless
   * this is a dry run) and reported; deleting a directory fails.
   */
  method RemoveObsolete(h: Host, lang: Path, obsolete: seq<string>, dryRun: bool) returns (removed: seq<string>, st: Status)
    requires h.Valid() && Distinct(obsolete)
    requires forall f :: f in obsolete ==> Exists(h.files, h.dirs, lang + [f])
    modifies h
    ensures h.Valid() && h.dirs == old(h.dirs) && h.cwd == old(h.cwd)
    ensures st.Done? <==> dryRun || AllFiles(old(h.files), lang, obsolete)
    ensures st.Done? ==> removed == obsolete
    ensures st.Done? ==> h.files == if dryRun then old(h.files) else old(h.files) - PathsIn(lang, obsolete)
    ensures dryRun ==> h.files == old(h.files)
  {
    ghost var o := h.files;
    removed, st := [], Done;
    for i := 0 to |obsolete|
      invariant h.Valid() && h.dirs == old(h.dirs) && h.cwd == old(h.cwd)
      invariant removed == obsolete[..i] && st.Done?
      invariant !dryRun ==> AllFiles(o, lang, obsolete[..i])
      invariant dryRun ==> h.files == o
      invariant !dryRun ==> h.files == o - PathsIn(lang, obsolete[..i])
    {
      var f := obsolete[i];
      PathsInStep(lang, obsolete, i);
      if !dryRun {
        RemovalStep(o, h.dirs, lang, obsolete, i);
      }
      var present;
      present, st := RemoveOne(h, lang + [f], dryRun);
      if st.Error? {
        return;
      }
      if present {
        removed := removed + [f];
      }
    }
    assert obsolete[..|obsolete|] == obsolete;
  }

  // ---------------------------------------------------------------------------
  // syncLanguage
  // ---------------------------------------------------------------------------

  /** The files after a real run: the copies, then the deletion of what was obsolete after them. */
  function AfterSync(files: map<Path, string>, dirs: set<Path>, tmpl: Path, lang: Path, names: seq<string>): map<Path, string> {
    var c := Copied(files, tmpl, lang, names);
    c - PathsIn(lang, ObsoleteFiles(c, dirs, tmpl, lang))
  }

  /** What a successful sync of `lang` against `tmpl` reports and leaves behind. */
  ghost predicate SyncReported(o: map<Path, string>, dirs: set<Path>, tmpl: Path, lang: Path, dryRun: bool,
                               res: SyncResult, files: map<Path, string>) {
    && (!dryRun ==> CopiesSucceed(o, dirs, tmpl, lang))
    && (forall n :: n in res.added <==> n in AddedNames(o, dirs, tmpl, lang))
    && (forall n :: n in res.updated <==> n in UpdatedNames(o, dirs, tmpl, lang))
    && Distinct(res.added) && Distinct(res.updated)
    && exists names :: IsConfigList(names, o, tmpl)
         && (dryRun ==> res.removed == ObsoleteFiles(o, dirs, tmpl, lang) && files == o)
         && (!dryRun ==> res.removed == ObsoleteFiles(Copied(o, tmpl, lang, names), dirs, tmpl, lang)
                         && files == AfterSync(o, dirs, tmpl, lang, names))
  }

  /**
   * syncLanguage: `root/<language>` against `templatesDir/<language>`. A missing workspace or
   * template directory is reported before anything changes; a dry run changes nothing.
   */
  method SyncLanguage(h: Host, templatesDir: Path, root: Path, language: string, dryRun: bool)
    returns (r: Result<SyncResult>)
    requires h.Valid()
    modifies h
    ensures h.Valid() && h.dirs == old(h.dirs) && h.cwd == old(h.cwd)
    ensures var lang := root + [language];
      !Exists(old(h.files), old(h.dirs), lang) ==>
        r == Failure("Language workspace '" + language + "' not found") && h.files == old(h.files)
    ensures var lang, tmpl := root + [language], templatesDir + [language];
      Exists(old(h.files), old(h.dirs), lang) && !Exists(old(h.files), old(h.dirs), tmpl) ==>
        r == Failure("Template for '" + language + "' not found") && h.files == old(h.files)
    ensures dryRun ==> h.files == old(h.files)
    ensures var lang, tmpl := root + [language], templatesDir + [language];
      r.Success? ==>
        && Exists(old(h.files), old(h.dirs), lang) && tmpl in old(h.dirs)
        && SyncReported(old(h.files), old(h.dirs), tmpl, lang, dryRun, r.value, h.files)
    ensures var lang, tmpl := root + [language], templatesDir + [language];
      Exists(old(h.files), old(h.dirs), lang) && tmpl in old(h.dirs) && dryRun ==> r.Success?
    ensures var lang, tmpl := root + [language], templatesDir + [language];
      Exists(old(h.files), old(h.dirs), lang) && tmpl in old(h.dirs) && !dryRun && r.Failure? ==>
        !CopiesSucceed(old(h.files), old(h.dirs), tmpl, lang) || lang + [BiomeFile] in old(h.dirs)
  {
    var lang, tmpl := root + [language], templatesDir + [language];
    if !Exists(h.files, h.dirs, lang) {
      return Failure("Language workspace '" + language + "' not found");
    }
    if !Exists(h.files, h.dirs, tmpl) {
      return Failure("Template for '" + language + "' not found");
    }
    r := SyncTemplateFiles(h, tmpl, lang, dryRun);
  }

  /** The part of syncLanguage after its guards: copy the configuration files, then remove the obsolete ones. */
  method SyncTemplateFiles(h: Host, tmpl: Path, lang: Path, dryRun: bool) returns (r: Result<SyncResult>)
    requires h.Valid()
    modifies h
    ensures h.Valid() && h.dirs == old(h.dirs) && h.cwd == old(h.cwd)
    ensures dryRun ==> h.files == old(h.files)
    ensures tmpl in old(h.dirs) && dryRun ==> r.Success?
    ensures r.Success? ==> tmpl in old(h.dirs) && SyncReported(old(h.files), old(h.dirs), tmpl, lang, dryRun, r.value, h.files)
    ensures tmpl in old(h.dirs) && !dryRun && r.Failure? ==>
      !CopiesSucceed(old(h.files), old(h.dirs), tmpl, lang) || lang + [BiomeFile] in old(h.dirs)
  {
    ghost var o, dirs := h.files, h.dirs;
    var names := GetConfigFiles(h, tmpl);
    if names.Failure? {
      return Failure(names.error);
    }
    var added, updated, st := SyncConfigFiles(h, tmpl, lang, names.value, dryRun);
    if st.Error? {
      return Failure(st.message);
    }
    ghost var c := h.files;
    var obsolete := GetObsoleteFiles(h, tmpl, lang);
    var removed, st2 := RemoveObsolete(h, lang, obsolete, dryRun);
    if st2.Error? {
      return Failure(st2.message);
    }
    r := Success(SyncResult(updated, added, removed));
    assert IsConfigList(names.value, o, tmpl)
      && (dryRun ==> r.value.removed == ObsoleteFiles(o, dirs, tmpl, lang) && h.files == o)
      && (!dryRun ==> r.value.removed == ObsoleteFiles(Copied(o, tmpl, lang, names.value), dirs, tmpl, lang)
                      && h.files == AfterSync(o, dirs, tmpl, lang, names.value));
  }

  // ---------------------------------------------------------------------------
  // Properties of a sync
  // ---------------------------------------------------------------------------

  /** With distinct directories, copying into `lang` leaves every file of `tmpl` alone. */
  lemma TemplateUntouched(o: map<Path, string>, tmpl: Path, lang: Path, names: seq<string>, x: string)
    requires tmpl != lang
    ensures tmpl + [x] in Copied(o, tmpl, lang, names) <==> tmpl + [x] in o
    ensures tmpl + [x] in o ==> Copied(o, tmpl, lang, names)[tmpl + [x]] == o[tmpl + [x]]
    ensures forall fs :: tmpl + [x] !in PathsIn(lang, fs)
  {
    forall m
      ensures tmpl + [x] != lang + [m]
    {
      if |tmpl| == |lang| {
        var j :| 0 <= j < |tmpl| && tmpl[j] != lang[j];
        assert (tmpl + [x])[j] != (lang + [m])[j];
      } else {
        assert |tmpl + [x]| != |lang + [m]|;
      }
    }
    CopiedOutside(o, tmpl, lang, names, tmpl + [x]);
  }

  /** A file is in the workspace or in the template after the copies exactly when it was before. */
  lemma PresenceAfterCopies(o: map<Path, string>, dirs: set<Path>, tmpl: Path, lang: Path, names: seq<string>, x: string)
    requires IsConfigList(names, o, tmpl) && tmpl != lang
    ensures var c := Copied(o, tmpl, lang, names);
      (Exists(c, dirs, lang + [x]) || Exists(c, dirs, tmpl + [x])) <==> (Exists(o, dirs, lang + [x]) || Exists(o, dirs, tmpl + [x]))
  {
    TemplateUntouched(o, tmpl, lang, names, x);
    if x !in names {
      NotAmong(lang, names, x);
      CopiedOutside(o, tmpl, lang, names, lang + [x]);
    }
  }

  /**
   * A dry run reports the removals a real run makes, unless the template itself ships
   * `biome.json`: the copies never create the ESLint or Prettier configuration out of nothing.
   */
  lemma DryRunReportsRealRemovals(o: map<Path, string>, dirs: set<Path>, tmpl: Path, lang: Path, names: seq<string>)
    requires IsConfigList(names, o, tmpl) && BiomeFile !in names && tmpl != lang
    ensures ObsoleteFiles(Copied(o, tmpl, lang, names), dirs, tmpl, lang) == ObsoleteFiles(o, dirs, tmpl, lang)
  {
    PresenceAfterCopies(o, dirs, tmpl, lang, names, "eslint.config.js");
    PresenceAfterCopies(o, dirs, tmpl, lang, names, ".prettierrc");
    NotAmong(lang, names, BiomeFile);
    CopiedOutside(o, tmpl, lang, names, lang + [BiomeFile]);
  }

  lemma PathsInObsolete(lang: Path, fs: seq<string>)
    requires fs == [] || fs == [BiomeFile]
    ensures PathsIn(lang, fs) == if fs == [] then {} else {lang + [BiomeFile]}
  {
    if fs == [BiomeFile] {
      assert lang + [BiomeFile] in PathsIn(lang, fs);
    }
  }

  /**
   * Sync is idempotent: after a successful real run, a second run has nothing to add, update
   * or remove, and changes nothing. This needs the template not to ship `biome.json` (see
   * BiomeShippedComesBack) and the workspace not to be the template directory itself.
   */
  lemma SyncIdempotent(o: map<Path, string>, dirs: set<Path>, tmpl: Path, lang: Path, names: seq<string>)
    requires IsConfigList(names, o, tmpl) && BiomeFile !in names && tmpl != lang
    requires lang + [BiomeFile] !in dirs
    ensures var f1 := AfterSync(o, dirs, tmpl, lang, names);
      && IsConfigList(names, f1, tmpl)
      && AddedNames(f1, dirs, tmpl, lang) == {}
      && UpdatedNames(f1, dirs, tmpl, lang) == {}
      && ObsoleteFiles(Copied(f1, tmpl, lang, names), dirs, tmpl, lang) == []
      && AfterSync(f1, dirs, tmpl, lang, names) == f1
  {
    var c := Copied(o, tmpl, lang, names);
    var obs := ObsoleteFiles(c, dirs, tmpl, lang);
    var f1 := c - PathsIn(lang, obs);
    PathsInObsolete(lang, obs);
    forall x
      ensures (tmpl + [x] in f1 <==> tmpl + [x] in o) && (tmpl + [x] in o ==> f1[tmpl + [x]] == o[tmpl + [x]])
    {
      TemplateUntouched(o, tmpl, lang, names, x);
    }
    assert ConfigNames(f1, tmpl) == ConfigNames(o, tmpl);
    forall n | n in names
      ensures lang + [n] in f1 && f1[lang + [n]] == f1[tmpl + [n]]
    {
      CopiedAt(o, tmpl, lang, names, n);
      assert lang + [n] != lang + [BiomeFile] by { assert (lang + [n])[|lang|] == n; }
    }
    CopiedNothing(f1, tmpl, lang, names);
    assert ObsoleteFiles(f1, dirs, tmpl, lang) == [];
    PathsInObsolete(lang, []);
    assert f1 - {} == f1;
  }

  /**
   * A template that ships `biome.json` next to the ESLint and Prettier configurations defeats
   * both properties above: a real run adds `biome.json` and then deletes it, a dry run reports
   * no deletion, and the next run adds it again.
   */
  lemma BiomeShippedComesBack(o: map<Path, string>, dirs: set<Path>, tmpl: Path, lang: Path, names: seq<string>)
    requires IsConfigList(names, o, tmpl) && BiomeFile in names && tmpl != lang
    requires lang + [BiomeFile] !in o && lang + [BiomeFile] !in dirs
    requires tmpl + ["eslint.config.js"] in o && tmpl + [".prettierrc"] in o
    ensures BiomeFile in AddedNames(o, dirs, tmpl, lang)
    ensures ObsoleteFiles(o, dirs, tmpl, lang) == []
    ensures ObsoleteFiles(Copied(o, tmpl, lang, names), dirs, tmpl, lang) == [BiomeFile]
    ensures BiomeFile in AddedNames(AfterSync(o, dirs, tmpl, lang, names), dirs, tmpl, lang)
  {
    var c := Copied(o, tmpl, lang, names);
    CopiedAt(o, tmpl, lang, names, BiomeFile);
    TemplateUntouched(o, tmpl, lang, names, "eslint.config.js");
    TemplateUntouched(o, tmpl, lang, names, ".prettierrc");
    TemplateUntouched(o, tmpl, lang, names, BiomeFile);
    assert ObsoleteFiles(c, dirs, tmpl, lang) == [BiomeFile];
    PathsInObsolete(lang, [BiomeFile]);
    var f1 := c - {lang + [BiomeFile]};
    assert BiomeFile in ConfigNames(f1, tmpl);
  }

  // ---------------------------------------------------------------------------
  // The languages of `sync` without an argument
  // ---------------------------------------------------------------------------

  /** Among the first `i` entries, `n` names a non-hidden directory with a template. */
  ghost predicate ListedLanguage(es: seq<DirEntry>, i: int, n: string, files: map<Path, string>, dirs: set<Path>, templatesDir: Path) {
    exists k :: 0 <= k < i && k < |es| && es[k].name == n && es[k].isDirectory && n != ".git" && !StartsWith(n, ".")
                && Exists(files, dirs, templatesDir + [n])
  }

  /**
   * getWorkspaceLanguages of the sync command: the directories of the workspace root, other
   * than `.git` and hidden ones, for which the template store has an entry; nothing when the
   * root cannot be read.
   */
  method SyncLanguages(h: Host, templatesDir: Path, root: Path) returns (langs: seq<string>)
    ensures root !in h.dirs ==> langs == []
    ensures forall n :: n in langs <==>
      root in h.dirs && root + [n] in h.dirs && n != ".git" && !StartsWith(n, ".") && Exists(h.files, h.dirs, templatesDir + [n])
    ensures Distinct(langs)
  {
    langs := [];
    var entries := h.ReadDir(root);
    if entries.Failure? {
      return;
    }
    var es := entries.value;
    for i := 0 to |es|
      invariant forall n :: n in langs <==> ListedLanguage(es, i, n, h.files, h.dirs, templatesDir)
      invariant Distinct(langs)
    {
      var e := es[i];
      assert !ListedLanguage(es, i, e.name, h.files, h.dirs, templatesDir);
      if e.isDirectory && e.name != ".git" && !StartsWith(e.name, ".") {
        if Exists(h.files, h.dirs, templatesDir + [e.name]) {
          langs := langs + [e.name];
        }
      }
    }
    forall n | root + [n] in h.dirs && n != ".git" && !StartsWith(n, ".") && Exists(h.files, h.dirs, templatesDir + [n])
      ensures n in langs
    {
      ChildNamesMembership(h.files, h.dirs, root, n);
      var e :| e in es && e.name == n;
      var k :| 0 <= k < |es| && es[k] == e;
    }
    forall n | n in langs
      ensures root + [n] in h.dirs
    {
      var k :| 0 <= k < |es| && es[k].name == n && es[k].isDirectory;
      assert es[k] in es;
    }
  }

  // ---------------------------------------------------------------------------
  // displaySyncResult
  // ---------------------------------------------------------------------------

  function Total(r: SyncResult): nat {
    |r.updated| + |r.added| + |r.removed|
  }

  /** The closing line: the number of files changed, "file" in the singular only for one. */
  function SummaryLine(total: nat, dryRun: bool): string {
    "  \U{2192} " + NatToString(total) + SummaryTail(total, dryRun)
  }

  /** What follows the count in the summary line. */
  function SummaryTail(total: nat, dryRun: bool): (r: string)
    ensures |r| > 0 && r[0] == ' '
    ensures StartsWith(r, " file ") <==> total == 1
    ensures StartsWith(r, " files ") <==> total != 1
  {
    var word := if total == 1 then " file " else " files ";
    var r := word + (if dryRun then "would be " else "") + "changed\n";
    assert r[..|word|] == word && r[5] == word[5];
    r
  }

  function Lines(marker: string, fs: seq<string>): (r: seq<string>)
    ensures |r| == |fs| && forall i :: 0 <= i < |fs| ==> r[i] == marker + fs[i]
  {
    seq(|fs|, i requires 0 <= i < |fs| => marker + fs[i])
  }

  /**
   * The lines displaySyncResult prints for one language: a single "Already up to date" line
   * when nothing changed, else a header, one line per file and the summary.
   */
  function DisplayLines(language: string, r: SyncResult, dryRun: bool): (lines: seq<string>)
    ensures Total(r) == 0 ==> lines == ["\U{2713} " + language + ": Already up to date"]
    ensures Total(r) > 0 ==> |lines| == Total(r) + 2 && lines[|lines| - 1] == SummaryLine(Total(r), dryRun)
    ensures lines[0] == "\U{2713} " + language + ": Already up to date" <==> Total(r) == 0
    ensures Total(r) > 0 ==> lines[0] == (if dryRun then "[DRY RUN] " else "") + language + ":"
    ensures forall i :: 0 <= i < |r.added| ==> lines[1 + i] == "  + Added " + r.added[i]
    ensures forall i :: 0 <= i < |r.updated| ==>
              lines[1 + |r.added| + i] == "  \U{2713} Updated " + r.updated[i]
    ensures forall i :: 0 <= i < |r.removed| ==>
              lines[1 + |r.added| + |r.updated| + i] == "  - Removed " + r.removed[i]
  {
    if Total(r) == 0 then ["\U{2713} " + language + ": Already up to date"]
    else
      var header := (if dryRun then "[DRY RUN] " else "") + language + ":";
      assert |header| < |"\U{2713} " + language + ": Already up to date"|;
      var added, updated := Lines("  + Added ", r.added), Lines("  \U{2713} Updated ", r.updated);
      var removed := Lines("  - Removed ", r.removed);
      Layout(header, added, updated, removed, SummaryLine(Total(r), dryRun));
      [header] + added + updated + removed + [SummaryLine(Total(r), dryRun)]
  }

  /** Where each part sits in a header, three blocks and a closing line. */
  lemma Layout<T>(header: T, a: seq<T>, b: seq<T>, c: seq<T>, last: T)
    ensures var l := [header] + a + b + c + [last];
      && |l| == |a| + |b| + |c| + 2 && l[0] == header && l[|l| - 1] == last
      && (forall i :: 0 <= i < |a| ==> l[1 + i] == a[i])
      && (forall i :: 0 <= i < |b| ==> l[1 + |a| + i] == b[i])
      && (forall i :: 0 <= i < |c| ==> l[1 + |a| + |b| + i] == c[i])
  {
  }

  /** After a common prefix, digits followed by a non-digit: equal texts have equal numerals. */
  lemma {:induction false} NumeralPrefix(p: string, a: string, b: string, c: string, d: string)
    requires forall i :: 0 <= i < |a| ==> IsDigit(a[i])
    requires forall i :: 0 <= i < |c| ==> IsDigit(c[i])
    requires |b| > 0 && !IsDigit(b[0]) && |d| > 0 && !IsDigit(d[0])
    requires p + a + b == p + c + d
    ensures a == c
  {
    assert a + b == (p + a + b)[|p|..];
    assert c + d == (p + c + d)[|p|..];
    assert a == (a + b)[..|a|] && c == (c + d)[..|c|];
  }

  lemma SummaryNamesTotal(t1: nat, t2: nat, dryRun: bool)
    requires SummaryLine(t1, dryRun) == SummaryLine(t2, dryRun)
    ensures t1 == t2
  {
    NumeralPrefix("  \U{2192} ", NatToString(t1), SummaryTail(t1, dryRun), NatToString(t2), SummaryTail(t2, dryRun));
    NatToStringValue(t1);
    NatToStringValue(t2);
  }

  // ---------------------------------------------------------------------------
  // The sync action
  // ---------------------------------------------------------------------------

  /**
   * The sync command: finds the workspace, takes the named language or else every language
   * of the workspace that has a template, and syncs them in turn, stopping at the first
   * failure. A dry run changes no file.
   */
  method SyncAction(h: Host, templatesDir: Path, language: Option<string>, dryRun: bool)
    returns (languages: seq<string>, results: seq<SyncResult>, ghost states: seq<map<Path, string>>, st: Status)
    requires h.Valid()
    modifies h
    ensures h.Valid() && h.dirs == old(h.dirs) && h.cwd == old(h.cwd)
    ensures Workspace.NearestRoot(old(h.files), old(h.dirs), old(h.cwd)).None? ==>
      st == Error("No leetkick workspace found. Run \"leetkick init\" first.") && languages == [] && results == []
      && h.files == old(h.files)
    ensures dryRun ==> h.files == old(h.files)
    ensures var root := Workspace.NearestRoot(old(h.files), old(h.dirs), old(h.cwd));
      root.Some? && language.Some? && language.value != "" ==> languages == [language.value]
    ensures var root := Workspace.NearestRoot(old(h.files), old(h.dirs), old(h.cwd));
      root.Some? && !(language.Some? && language.value != "") ==>
        && Distinct(languages)
        && forall n :: n in languages <==>
             root.value in old(h.dirs) && root.value + [n] in old(h.dirs) && n != ".git" && !StartsWith(n, ".")
             && Exists(old(h.files), old(h.dirs), templatesDir + [n])
    ensures |states| == |results| + 1 && states[0] == old(h.files) && (st.Done? ==> states[|results|] == h.files)
    ensures |results| <= |languages|
    ensures var root := Workspace.NearestRoot(old(h.files), old(h.dirs), old(h.cwd));
      root.Some? ==> (st.Done? <==> |results| == |languages|)
    ensures var root := Workspace.NearestRoot(old(h.files), old(h.dirs), old(h.cwd));
      root.Some? ==> SyncedInTurn(old(h.dirs), templatesDir, root.value, languages, dryRun, results, states)
  {
    var root := Workspace.FindWorkspaceRoot(h, h.cwd);
    if root.None? {
      return [], [], [h.files], Error("No leetkick workspace found. Run \"leetkick init\" first.");
    }
    if language.Some? && language.value != "" {
      languages := [language.value];
    } else {
      languages := SyncLanguages(h, templatesDir, root.value);
    }
    results, states, st := SyncEachLanguage(h, templatesDir, root.value, languages, dryRun);
  }

  /**
   * The first `|results|` languages were synced one after the other: each result is the report
   * of syncing that language from the files the previous one left, `states` holding the files
   * before the first language and after each one.
   */
  ghost predicate SyncedInTurn(dirs: set<Path>, templatesDir: Path, root: Path, languages: seq<string>, dryRun: bool,
                               results: seq<SyncResult>, states: seq<map<Path, string>>)
    decreases |results|
  {
    && |results| <= |languages| && |states| == |results| + 1
    && (|results| > 0 ==>
          var k := |results| - 1;
          && SyncedInTurn(dirs, templatesDir, root, languages, dryRun, results[..k], states[..k + 1])
          && SyncReported(states[k], dirs, templatesDir + [languages[k]], root + [languages[k]], dryRun, results[k], states[k + 1]))
  }

  lemma SyncedInTurnStep(dirs: set<Path>, templatesDir: Path, root: Path, languages: seq<string>, dryRun: bool,
                         results: seq<SyncResult>, states: seq<map<Path, string>>, r: SyncResult, files: map<Path, string>)
    requires SyncedInTurn(dirs, templatesDir, root, languages, dryRun, results, states)
    requires |results| < |languages|
    requires SyncReported(states[|results|], dirs, templatesDir + [languages[|results|]], root + [languages[|results|]],
                          dryRun, r, files)
    ensures SyncedInTurn(dirs, templatesDir, root, languages, dryRun, results + [r], states + [files])
  {
    var results', states' := results + [r], states + [files];
    assert results'[..|results|] == results && states'[..|results| + 1] == states;
    assert results'[|results|] == r && states'[|results|] == states[|results|] && states'[|results| + 1] == files;
  }

  /** Syncs each language in turn, stopping at the first failure with its message. */
  method SyncEachLanguage(h: Host, templatesDir: Path, root: Path, languages: seq<string>, dryRun: bool)
    returns (results: seq<SyncResult>, ghost states: seq<map<Path, string>>, st: Status)
    requires h.Valid()
    modifies h
    ensures h.Valid() && h.dirs == old(h.dirs) && h.cwd == old(h.cwd)
    ensures dryRun ==> h.files == old(h.files)
    ensures SyncedInTurn(old(h.dirs), templatesDir, root, languages, dryRun, results, states)
    ensures |states| == |results| + 1 && states[0] == old(h.files) && (st.Done? ==> states[|results|] == h.files)
    ensures st.Done? <==> |results| == |languages|
  {
    results, states := [], [h.files];
    for i := 0 to |languages|
      invariant h.Valid() && h.dirs == old(h.dirs) && h.cwd == old(h.cwd)
      invariant dryRun ==> h.files == old(h.files)
      invariant |results| == i && SyncedInTurn(old(h.dirs), templatesDir, root, languages, dryRun, results, states)
      invariant states[0] == old(h.files) && states[i] == h.files
    {
      var r := SyncLanguage(h, templatesDir, root, languages[i], dryRun);
      if r.Failure? {
        return results, states, Error(r.error);
      }
      SyncedInTurnStep(old(h.dirs), templatesDir, root, languages, dryRun, results, states, r.value, h.files);
      results, states := results + [r.value], states + [h.files];
    }
    st := Done;
  }
}
