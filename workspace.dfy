/**
 * Workspace discovery: a workspace is a directory holding `.leetkick.json`; commands find
 * it by walking up from the working directory, and list the language directories in it.
 */
module Workspace {
  import opened Wrappers
  import opened Strings
  import opened FileSystem

  const ConfigFile: string := ".leetkick.json"

  /** The languages whose directories count as workspace languages (Kotlin is not among them). */
  const SupportedLanguages: seq<string> := ["typescript", "javascript", "python", "java", "cpp", "go", "rust"]

  /** isWorkspaceInitialized: `.leetkick.json` exists (as a file or a directory) in `dir`. */
  predicate IsWorkspaceInitialized(files: map<Path, string>, dirs: set<Path>, dir: Path): (r: bool)
    ensures r <==> dir + [ConfigFile] in files || dir + [ConfigFile] in dirs
  {
    Exists(files, dirs, dir + [ConfigFile])
  }

  /** The nearest of `p` and its ancestors that holds the marker, `/` excluded. */
  function NearestRoot(files: map<Path, string>, dirs: set<Path>, p: Path): Option<Path>
    decreases |p|
  {
    if |p| == 0 then None
    else if IsWorkspaceInitialized(files, dirs, p) then Some(p)
    else NearestRoot(files, dirs, Dirname(p))
  }

  /**
   * NearestRoot finds the longest prefix of `p`, other than `/`, that holds the marker:
   * `p` itself when it does, and nothing when no such prefix does.
   */
  lemma {:induction false} NearestRootIsNearest(files: map<Path, string>, dirs: set<Path>, p: Path)
    ensures var r := NearestRoot(files, dirs, p);
      r.Some? ==> (0 < |r.value| <= |p| && r.value == p[..|r.value|]
                   && IsWorkspaceInitialized(files, dirs, r.value)
                   && forall k :: |r.value| < k <= |p| ==> !IsWorkspaceInitialized(files, dirs, p[..k]))
    ensures NearestRoot(files, dirs, p).None? <==>
      forall k :: 0 < k <= |p| ==> !IsWorkspaceInitialized(files, dirs, p[..k])
    ensures |p| > 0 && IsWorkspaceInitialized(files, dirs, p) ==> NearestRoot(files, dirs, p) == Some(p)
    decreases |p|
  {
    if |p| > 0 {
      assert p[..|p|] == p;
      if !IsWorkspaceInitialized(files, dirs, p) {
        var q := Dirname(p);
        NearestRootIsNearest(files, dirs, q);
        PrefixesOfParent(p);
        var r := NearestRoot(files, dirs, p);
        assert r == NearestRoot(files, dirs, q);
        if r.Some? {
          forall k | |r.value| < k <= |p|
            ensures !IsWorkspaceInitialized(files, dirs, p[..k])
          {
            if k < |p| {
              assert p[..k] == q[..k];
            }
          }
        } else {
          forall k | 0 < k <= |p|
            ensures !IsWorkspaceInitialized(files, dirs, p[..k])
          {
            if k < |p| {
              assert p[..k] == q[..k];
            }
          }
        }
      }
    }
  }

  lemma PrefixesOfParent(p: Path)
    requires |p| > 0
    ensures forall k :: 0 <= k <= |p| - 1 ==> Dirname(p)[..k] == p[..k]
  {
  }

  /** findWorkspaceRoot: walks up with dirname until `/`, which is never examined. */
  method FindWorkspaceRoot(h: Host, startDir: Path) returns (root: Option<Path>)
    ensures root == NearestRoot(h.files, h.dirs, startDir)
  {
    var current := startDir;
    while current != []
      invariant NearestRoot(h.files, h.dirs, current) == NearestRoot(h.files, h.dirs, startDir)
      decreases |current|
    {
      if Exists(h.files, h.dirs, current + [ConfigFile]) {
        return Some(current);
      }
      current := Dirname(current);
    }
    return None;
  }

  /** The language directories among `entries`, in listing order (the filter/map of getWorkspaceLanguages). */
  function LanguageEntries(entries: seq<DirEntry>): (r: seq<string>)
    ensures |r| <= |entries|
    ensures forall n :: n in r <==>
      exists e :: e in entries && e.name == n && e.isDirectory && !StartsWith(n, ".") && n in SupportedLanguages
  {
    if |entries| == 0 then []
    else
      var e := entries[0];
      var rest := LanguageEntries(entries[1..]);
      assert forall d :: d in entries <==> d == e || d in entries[1..];
      if e.isDirectory && !StartsWith(e.name, ".") && e.name in SupportedLanguages then [e.name] + rest
      else rest
  }

  /** No supported language name starts with '.', so the dot filter never removes one. */
  lemma SupportedNamesHaveNoDot()
    ensures forall n :: n in SupportedLanguages ==> !StartsWith(n, ".")
  {
    forall n | n in SupportedLanguages
      ensures !StartsWith(n, ".")
    {
      assert n[0] != '.';
    }
  }

  lemma {:induction false} LanguageEntriesDistinct(entries: seq<DirEntry>)
    requires forall i, j :: 0 <= i < j < |entries| ==> entries[i].name != entries[j].name
    ensures forall i, j :: 0 <= i < j < |LanguageEntries(entries)| ==> LanguageEntries(entries)[i] != LanguageEntries(entries)[j]
  {
    if |entries| > 0 {
      LanguageEntriesDistinct(entries[1..]);
      assert forall d :: d in entries[1..] ==> d.name != entries[0].name;
      assert entries[0].name !in LanguageEntries(entries[1..]);
    }
  }

  /**
   * getWorkspaceLanguages: each supported language whose directory is in the workspace root,
   * once; nothing when the root cannot be read.
   */
  method WorkspaceLanguages(h: Host, root: Path) returns (langs: seq<string>)
    ensures root !in h.dirs ==> langs == []
    ensures forall n :: n in langs <==> root in h.dirs && n in SupportedLanguages && root + [n] in h.dirs
    ensures forall i, j :: 0 <= i < j < |langs| ==> langs[i] != langs[j]
    ensures "kotlin" !in langs
  {
    var entries := h.ReadDir(root);
    if entries.Failure? {
      return [];
    }
    langs := LanguageEntries(entries.value);
    LanguageEntriesDistinct(entries.value);
    SupportedNamesHaveNoDot();
    forall n | n in SupportedLanguages && root + [n] in h.dirs
      ensures n in langs
    {
      assert (root + [n])[..|root|] == root && (root + [n])[|root|] == n;
      assert n in ChildNames(h.files, h.dirs, root);
    }
  }
}
