/** The part of the file system the program touches: a map from path to content and the
    set of directories, with recursive `mkdirSync` and `writeFileSync`, and the two path
    helpers `path.join` and `path.dirname` on `/`-separated paths. */
module Disk {

  import opened Wrappers

  /** Why a file-system call throws. */
  datatype FsError =
    | FileExists(path: string)    // EEXIST / ENOTDIR: a file stands at or above this directory
    | IsADirectory(path: string)  // EISDIR: the write target is a directory

  /** A snapshot of the disk. */
  datatype Store = Store(files: map<string, string>, dirs: set<string>)

  /** The state after a call and the error it threw, if any; a call that throws changes
      nothing. */
  datatype FsStep = FsStep(store: Store, error: Option<FsError>)

  /** `d` is `p` itself or one of the directories above it. */
  predicate IsAncestorOrSelf(d: string, p: string)
  {
    d == p || (|d| < |p| && p[..|d|] == d && p[|d|] == '/')
  }

  /** The directories above `p`: every prefix that a `/` ends. */
  function Ancestors(p: string): set<string>
  {
    set i | 0 < i < |p| && p[i] == '/' :: p[..i]
  }

  /** `fs.mkdirSync(d, { recursive: true })`: creates `d` and every directory above it; it
      throws when a file stands at `d` or above it. */
  function Mkdir(st: Store, d: string): (r: FsStep)
    ensures r.error.Some? ==> r.store == st
    ensures r.error.None? ==> r.store.files == st.files && d in r.store.dirs
  {
    if exists f :: f in st.files && IsAncestorOrSelf(f, d) then FsStep(st, Some(FileExists(d)))
    else
      FsStep(Store(st.files, st.dirs + Ancestors(d) + {d}), None)
  }

  /** `mkdirSync` throws exactly when a file stands at `d` or above it, and it never
      removes a directory. */
  lemma MkdirSpec(st: Store, d: string)
    ensures Mkdir(st, d).error.None? <==> (forall f :: f in st.files ==> !IsAncestorOrSelf(f, d))
    ensures Mkdir(st, d).store.dirs >= st.dirs
  {
  }

  /** `p` ends in a separator. */
  predicate EndsInSlash(p: string)
  {
    p != [] && p[|p| - 1] == '/'
  }

  /** `fs.writeFileSync(p, data)`: replaces the content at `p`; it throws when `p` is a
      directory, or when `p` ends in `/` (opening such a path for writing fails with
      EISDIR or ENOTDIR). */
  function WriteFile(st: Store, p: string, data: string): (r: FsStep)
    ensures r.error.None? <==> p !in st.dirs && !EndsInSlash(p)
    ensures r.error.Some? ==> r.store == st
    ensures r.error.None? ==> r.store.dirs == st.dirs && p in r.store.files && r.store.files[p] == data
  {
    if p in st.dirs || EndsInSlash(p) then FsStep(st, Some(IsADirectory(p)))
    else FsStep(Store(st.files[p := data], st.dirs), None)
  }

  /** A successful `writeFileSync` leaves every other file as it was. */
  lemma WriteFileSpec(st: Store, p: string, data: string)
    ensures var r := WriteFile(st, p, data);
      r.error.Some? <==> p in st.dirs || EndsInSlash(p)
    ensures var r := WriteFile(st, p, data);
      r.error.Some? ==> r.store == st
    ensures var r := WriteFile(st, p, data);
      r.error.None? ==>
        && (forall q :: q != p ==> (q in r.store.files <==> q in st.files))
        && (forall q :: q != p && q in st.files ==> r.store.files[q] == st.files[q])
  {
  }

  /** The disk as a mutable object that the managers of one process share. */
  class FileSystem {
    var files: map<string, string>
    var dirs: set<string>

    function Contents(): Store
      reads this
    {
      Store(files, dirs)
    }

    constructor(st: Store)
      ensures Contents() == st
    {
      files, dirs := st.files, st.dirs;
    }

    method MakeDir(d: string) returns (e: Option<FsError>)
      modifies this
      ensures FsStep(Contents(), e) == Mkdir(old(Contents()), d)
    {
      var r := Mkdir(Contents(), d);
      files, dirs, e := r.store.files, r.store.dirs, r.error;
    }

    method Write(p: string, data: string) returns (e: Option<FsError>)
      modifies this
      ensures FsStep(Contents(), e) == WriteFile(old(Contents()), p, data)
    {
      var r := WriteFile(Contents(), p, data);
      files, dirs, e := r.store.files, r.store.dirs, r.error;
    }
  }

  /** `path.join(d, r)` for a relative `r`, without the normalisation of `.`, `..` and
      repeated separators: an empty `r` leaves `d` as it is. */
  function JoinPath(d: string, r: string): (p: string)
    ensures r == [] ==> p == d
    ensures r != [] ==> |p| == |d| + 1 + |r| && p[..|d|] == d && p[|d|] == '/' && p[|d| + 1..] == r
  {
    if r == [] then d else d + "/" + r
  }

  /** Joining onto one directory is injective: different relative paths give different
      paths. */
  lemma JoinPathInjective(d: string, r1: string, r2: string)
    requires JoinPath(d, r1) == JoinPath(d, r2)
    ensures r1 == r2
  {
    if r1 != [] && r2 != [] {
      var p := JoinPath(d, r1);
      assert r1 == p[|d| + 1..] == r2;
    }
  }

  /** The index of the last `/` of `p`, if any. */
  function LastSlash(p: string): (r: Option<nat>)
    ensures r.Some? ==> r.value < |p| && p[r.value] == '/'
    ensures r.Some? ==> forall i :: r.value < i < |p| ==> p[i] != '/'
    ensures r.None? ==> forall i :: 0 <= i < |p| ==> p[i] != '/'
  {
    if p == [] then None
    else if p[|p| - 1] == '/' then Some(|p| - 1)
    else LastSlash(p[..|p| - 1])
  }

  /** `p` without its trailing separators; a leading `/` is never removed. */
  function StripTrailingSlashes(p: string): (q: string)
    ensures |q| <= |p| && q == p[..|q|]
    ensures p != [] ==> q != []
    ensures q != [] && q[|q| - 1] == '/' ==> |q| == 1
    ensures forall i :: |q| <= i < |p| ==> p[i] == '/'
  {
    if |p| > 1 && p[|p| - 1] == '/' then StripTrailingSlashes(p[..|p| - 1]) else p
  }

  /** `path.dirname(p)` on POSIX: trailing separators are ignored, then everything before the
      last `/` is kept; a path with no other `/` gives `/` when it starts with one and `.`
      otherwise, and a last `/` at index 1 after a leading one gives `//`. */
  function Dirname(p: string): (d: string)
  {
    var q := StripTrailingSlashes(p);
    match LastSlash(q)
    case None => "."
    case Some(i) =>
      if i == 0 then "/"
      else if i == 1 && q[0] == '/' then "//"
      else q[..i]
  }

  /** The segments `.` and `..`, which Node's `path.join` resolves away. */
  predicate IsDotSegment(r: string)
  {
    r == ['.'] || r == ['.', '.']
  }

  /** The directory of a joined path is the directory it was joined onto, when that
      directory has no trailing separator and the relative part is a bare name other than
      `.` and `..`. */
  lemma DirnameOfJoin(d: string, r: string)
    requires d != [] && d[|d| - 1] != '/'
    requires r != [] && !IsDotSegment(r) && forall i :: 0 <= i < |r| ==> r[i] != '/'
    ensures Dirname(JoinPath(d, r)) == d
  {
    var p := JoinPath(d, r);
    assert p[|d|] == '/';
    assert p[|p| - 1] == r[|r| - 1];
    assert StripTrailingSlashes(p) == p;
    forall i | |d| < i < |p| ensures p[i] != '/' {
      assert p[i] == r[i - |d| - 1];
    }
    assert LastSlash(p) == Some(|d|) by {
      LastSlashIs(p, |d|);
    }
  }

  /** `path.dirname` ignores trailing separators: `d/a/` has the directory `d`, as `d/a`
      does, for a bare name `a` other than `.` and `..`. */
  lemma DirnameIgnoresTrailingSlash(d: string, a: string)
    requires d != [] && d[|d| - 1] != '/'
    requires a != [] && !IsDotSegment(a) && forall i :: 0 <= i < |a| ==> a[i] != '/'
    ensures Dirname(JoinPath(d, a + "/")) == Dirname(JoinPath(d, a)) == d
  {
    var p := JoinPath(d, a + "/");
    assert p[..|p| - 1] == JoinPath(d, a);
    DirnameOfJoin(d, a);
    assert StripTrailingSlashes(p) == StripTrailingSlashes(JoinPath(d, a));
  }

  /** A `/` with none after it is the last one. */
  lemma {:induction false} LastSlashIs(p: string, k: nat)
    requires k < |p| && p[k] == '/'
    requires forall i :: k < i < |p| ==> p[i] != '/'
    ensures LastSlash(p) == Some(k)
    decreases |p|
  {
    if k < |p| - 1 {
      var q := p[..|p| - 1];
      assert forall i :: k < i < |q| ==> q[i] == p[i];
      LastSlashIs(q, k);
    }
  }
}
