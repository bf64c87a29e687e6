/**
 * The part of the host file system the CLI touches: regular files with text content,
 * directories, and the process working directory. Paths are absolute and held as
 * sequences of segments (`[]` is `/`). The primitives follow the Node.js `fs` calls the
 * commands use; each one either succeeds with the stated effect or fails and changes
 * nothing.
 */
module FileSystem {
  import opened Wrappers

  type Path = seq<string>

  /** path.dirname on an absolute path; `/` is its own parent. */
  function Dirname(p: Path): (r: Path)
    ensures |p| > 0 ==> p == r + [p[|p| - 1]]
    ensures |p| == 0 ==> r == p
  {
    if |p| == 0 then p else p[..|p| - 1]
  }

  /** Every ancestor of `p`, `p` itself and `/` included. */
  function Prefixes(p: Path): set<Path> {
    set i | 0 <= i <= |p| :: p[..i]
  }

  /** An entry of `readdir(dir, { withFileTypes: true })`. */
  datatype DirEntry = DirEntry(name: string, isDirectory: bool)

  /** existsSync: a file or a directory is at `p`. */
  predicate Exists(files: map<Path, string>, dirs: set<Path>, p: Path) {
    p in files || p in dirs
  }

  /** The names of the entries directly inside `p`. */
  function ChildNames(files: map<Path, string>, dirs: set<Path>, p: Path): set<string> {
    (set q | q in files.Keys && |q| == |p| + 1 && q[..|p|] == p :: q[|p|])
    + (set q | q in dirs && |q| == |p| + 1 && q[..|p|] == p :: q[|p|])
  }

  /** A name is a child of `p` exactly when a file or a directory sits at `p` + [name]. */
  lemma ChildNamesMembership(files: map<Path, string>, dirs: set<Path>, p: Path, n: string)
    ensures n in ChildNames(files, dirs, p) <==> p + [n] in files || p + [n] in dirs
  {
    var q := p + [n];
    assert q[..|p|] == p && q[|p|] == n;
    if n in ChildNames(files, dirs, p) {
      var r :| (r in files.Keys || r in dirs) && |r| == |p| + 1 && r[..|p|] == p && r[|p|] == n;
      assert r == q;
    }
  }

  /** The names of the regular files directly inside `p`. */
  function FileNames(files: map<Path, string>, p: Path): (r: set<string>)
    ensures forall n :: n in r <==> p + [n] in files
  {
    var r := set q | q in files.Keys && |q| == |p| + 1 && q[..|p|] == p :: q[|p|];
    assert forall n :: p + [n] in files ==> (p + [n])[..|p|] == p && (p + [n])[|p|] == n;
    assert forall q :: q in files.Keys && |q| == |p| + 1 && q[..|p|] == p ==> q == p + [q[|p|]];
    r
  }

  /** `entries` lists the directory `p` once per name, in some order, with correct types. */
  ghost predicate IsListing(entries: seq<DirEntry>, files: map<Path, string>, dirs: set<Path>, p: Path) {
    && (forall i, j :: 0 <= i < j < |entries| ==> entries[i].name != entries[j].name)
    && (forall e :: e in entries ==> e.name in ChildNames(files, dirs, p))
    && (forall n :: n in ChildNames(files, dirs, p) ==> exists e :: e in entries && e.name == n)
    && (forall e :: e in entries ==> (e.isDirectory <==> p + [e.name] in dirs))
  }

  /** The names of the directories among `entries`, in listing order. */
  function DirectoryNames(entries: seq<DirEntry>): (r: seq<string>)
    ensures |r| <= |entries|
    ensures forall n :: n in r <==> exists e :: e in entries && e.name == n && e.isDirectory
    ensures |entries| == 0 ==> r == []
    ensures |entries| == 1 ==> r == if entries[0].isDirectory then [entries[0].name] else []
  {
    if |entries| == 0 then []
    else
      var rest := DirectoryNames(entries[1..]);
      assert forall d :: d in entries <==> d == entries[0] || d in entries[1..];
      if entries[0].isDirectory then [entries[0].name] + rest else rest
  }

  /** Filtering keeps listing order: the names of a listing's two parts, one after the other. */
  lemma {:induction false} DirectoryNamesAppend(a: seq<DirEntry>, b: seq<DirEntry>)
    ensures DirectoryNames(a + b) == DirectoryNames(a) + DirectoryNames(b)
  {
    if |a| == 0 {
      assert a + b == b;
    } else {
      assert (a + b)[0] == a[0] && (a + b)[1..] == a[1..] + b;
      DirectoryNamesAppend(a[1..], b);
    }
  }

  lemma {:induction false} DirectoryNamesDistinct(entries: seq<DirEntry>)
    requires forall i, j :: 0 <= i < j < |entries| ==> entries[i].name != entries[j].name
    ensures forall i, j :: 0 <= i < j < |DirectoryNames(entries)| ==> DirectoryNames(entries)[i] != DirectoryNames(entries)[j]
  {
    if |entries| > 0 {
      DirectoryNamesDistinct(entries[1..]);
      assert forall d :: d in entries[1..] ==> d.name != entries[0].name;
      assert entries[0].name !in DirectoryNames(entries[1..]);
    }
  }

  /** A regular file may be created or overwritten at `p` (ENOENT / EISDIR otherwise). */
  predicate Writable(files: map<Path, string>, dirs: set<Path>, p: Path) {
    |p| > 0 && p !in dirs && Dirname(p) in dirs
  }

  /** The result of readFile(p, 'utf-8'). */
  function ReadResult(files: map<Path, string>, dirs: set<Path>, p: Path): (r: Result<string>)
    ensures r.Success? <==> p in files
    ensures r.Success? ==> r.value == files[p]
  {
    if p in files then Success(files[p])
    else if p in dirs then Failure("EISDIR: illegal operation on a directory")
    else Failure("ENOENT: no such file or directory")
  }

  class Host {
    var files: map<Path, string>
    var dirs: set<Path>
    var cwd: Path

    /** The root exists, nothing is both a file and a directory, and every entry has a parent. */
    ghost predicate Valid()
      reads this
    {
      && [] in dirs
      && files.Keys !! dirs
      && (forall p {:trigger p in files} :: p in files ==> |p| > 0 && Dirname(p) in dirs)
      && (forall p {:trigger Dirname(p)} :: p in dirs && |p| > 0 ==> Dirname(p) in dirs)
    }

    /** An empty file system whose working directory is `/`. */
    constructor ()
      ensures Valid()
      ensures files == map[] && dirs == {[]} && cwd == []
    {
      files := map[];
      dirs := {[]};
      cwd := [];
    }

    method ReadFile(p: Path) returns (r: Result<string>)
      ensures r == ReadResult(files, dirs, p)
    {
      r := ReadResult(files, dirs, p);
    }

    /** writeFile: creates or truncates a regular file whose parent directory exists. */
    method WriteFile(p: Path, content: string) returns (s: Status)
      requires Valid()
      modifies this
      ensures Valid()
      ensures s.Done? <==> Writable(old(files), old(dirs), p)
      ensures files == (if s.Done? then old(files)[p := content] else old(files))
      ensures dirs == old(dirs) && cwd == old(cwd)
    {
      if Writable(files, dirs, p) {
        files := files[p := content];
        s := Done;
      } else {
        s := Error("ENOENT: cannot write " + (if |p| > 0 then p[|p| - 1] else "/"));
      }
    }

    /** copyFile: the source must be a regular file, the target writable. */
    method CopyFile(src: Path, dst: Path) returns (s: Status)
      requires Valid()
      modifies this
      ensures Valid()
      ensures s.Done? <==> src in old(files) && Writable(old(files), old(dirs), dst)
      ensures files == (if s.Done? then old(files)[dst := old(files)[src]] else old(files))
      ensures dirs == old(dirs) && cwd == old(cwd)
    {
      if src in files && Writable(files, dirs, dst) {
        files := files[dst := files[src]];
        s := Done;
      } else {
        s := Error("ENOENT: cannot copy");
      }
    }

    /** unlink: removes a regular file; a directory or a missing path is an error. */
    method Unlink(p: Path) returns (s: Status)
      requires Valid()
      modifies this
      ensures Valid()
      ensures s.Done? <==> p in old(files)
      ensures files == (if s.Done? then old(files) - {p} else old(files))
      ensures dirs == old(dirs) && cwd == old(cwd)
    {
      if p in files {
        files := files - {p};
        s := Done;
      } else {
        s := Error("ENOENT: cannot unlink");
      }
    }

    /**
     * mkdir(p, { recursive: true }): creates `p` and its missing ancestors; fails, creating
     * nothing, when `p` or one of its ancestors is a regular file.
     */
    method MakeDirs(p: Path) returns (s: Status)
      requires Valid()
      modifies this
      ensures Valid()
      ensures s.Done? <==> files.Keys !! Prefixes(p)
      ensures dirs == (if s.Done? then old(dirs) + Prefixes(p) else old(dirs))
      ensures files == old(files) && cwd == old(cwd)
    {
      if files.Keys !! Prefixes(p) {
        forall q | q in Prefixes(p) && |q| > 0
          ensures Dirname(q) in Prefixes(p)
        {
          var i :| 0 <= i <= |p| && q == p[..i];
          assert Dirname(q) == p[..i - 1];
        }
        assert [] == p[..0];
        dirs := dirs + Prefixes(p);
        s := Done;
      } else {
        s := Error("ENOTDIR: not a directory");
      }
    }

    /** readdir(p, { withFileTypes: true }): the entries of a directory, in no fixed order. */
    method ReadDir(p: Path) returns (r: Result<seq<DirEntry>>)
      ensures r.Success? <==> p in dirs
      ensures r.Success? ==> IsListing(r.value, files, dirs, p)
    {
      if p !in dirs {
        return Failure(if p in files then "ENOTDIR: not a directory" else "ENOENT: no such directory");
      }
      var names := ChildNames(files, dirs, p);
      var rest := names;
      var entries: seq<DirEntry> := [];
      while rest != {}
        invariant rest <= names
        invariant forall e :: e in entries ==> e.name in names && e.name !in rest
        invariant forall n :: n in names ==> n in rest || exists e :: e in entries && e.name == n
        invariant forall i, j :: 0 <= i < j < |entries| ==> entries[i].name != entries[j].name
        invariant forall e :: e in entries ==> (e.isDirectory <==> p + [e.name] in dirs)
        decreases |rest|
      {
        var n :| n in rest;
        var e := DirEntry(n, p + [n] in dirs);
        entries := entries + [e];
        rest := rest - {n};
      }
      r := Success(entries);
    }

    /** process.chdir. */
    method Chdir(p: Path)
      modifies this
      ensures cwd == p
      ensures files == old(files) && dirs == old(dirs)
    {
      cwd := p;
    }
  }
}
