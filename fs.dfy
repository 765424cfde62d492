/**
 * A model of the part of the operating system the command touches: regular
 * files with byte contents, directories, and the `os`, `os.path` and `shutil`
 * calls made on them. Each call is a function from a filesystem state to
 * either a new state or the exception the call raises; a call that raises
 * leaves the state as it was.
 */
module Fs {
  import opened Wrappers

  newtype byte = x: int | 0 <= x < 256

  /** The bytes of a regular file. */
  type Content = seq<byte>

  /** A path as its components from the root; `[]` is the root itself. */
  type Path = seq<string>

  /** `os.path.join(dir, name)` for a single-component name. */
  function Join(dir: Path, name: string): Path {
    dir + [name]
  }

  function Parent(p: Path): Path
    requires p != []
  {
    p[..|p| - 1]
  }

  /** The exceptions raised by the calls below. */
  datatype Error =
    | FileNotFound(path: Path)   // FileNotFoundError (ENOENT)
    | FileExists(path: Path)     // FileExistsError (EEXIST)
    | IsADirectory(path: Path)   // IsADirectoryError (EISDIR)
    | NotADirectory(path: Path)  // NotADirectoryError (ENOTDIR)
    | SameFile(path: Path)       // shutil.SameFileError

  datatype FsState = FsState(files: map<Path, Content>, dirs: set<Path>)

  /** `os.path.isfile` */
  predicate IsFile(st: FsState, p: Path) {
    p in st.files
  }

  /** `os.path.isdir`; the root always exists. */
  predicate IsDir(st: FsState, p: Path) {
    p == [] || p in st.dirs
  }

  /** `os.path.exists` */
  predicate Exists(st: FsState, p: Path) {
    IsFile(st, p) || IsDir(st, p)
  }

  /**
   * A well-formed tree: nothing is both a file and a directory, the root is
   * neither listed as a file nor as a created directory, and the parent of
   * every file and directory is a directory.
   */
  predicate Valid(st: FsState) {
    && [] !in st.files
    && [] !in st.dirs
    && st.files.Keys !! st.dirs
    && (forall p :: p in st.files ==> IsDir(st, Parent(p)))
    && (forall p :: p in st.dirs ==> IsDir(st, Parent(p)))
  }

  /** Some proper ancestor of p (other than the root) is a regular file. */
  predicate FileAbove(st: FsState, p: Path) {
    exists k :: 0 < k < |p| && p[..k] in st.files
  }

  /** No component of p, p itself included, is a regular file. */
  predicate NoFileOnPath(st: FsState, p: Path) {
    forall k :: 0 < k <= |p| ==> p[..k] !in st.files
  }

  /**
   * The error the OS reports for a path that cannot be reached: ENOTDIR when
   * an ancestor is a regular file, ENOENT otherwise.
   */
  function Unreachable(st: FsState, p: Path): Error {
    if FileAbove(st, p) then NotADirectory(p) else FileNotFound(p)
  }

  /** `os.mkdir(d)` */
  function Mkdir(st: FsState, d: Path): (r: Result<FsState, Error>)
    ensures r.Success? <==> !Exists(st, d) && IsDir(st, Parent(d))
    ensures r.Success? ==> r.value.files == st.files && r.value.dirs == st.dirs + {d}
    ensures Exists(st, d) ==> r == Failure(FileExists(d))
  {
    if Exists(st, d) then Failure(FileExists(d))
    else if !IsDir(st, Parent(d)) then Failure(Unreachable(st, d))
    else Success(st.(dirs := st.dirs + {d}))
  }

  /**
   * `os.makedirs(d)` as CPython writes it: create the missing parent first
   * (recursively), ignoring a FileExistsError from that recursive call, then
   * `mkdir` d itself.
   */
  function MakeDirs(st: FsState, d: Path): (r: Result<FsState, Error>)
    ensures r.Success? ==> r.value.files == st.files && IsDir(r.value, d) && st.dirs <= r.value.dirs
    ensures r.Success? ==> forall p :: p in r.value.dirs && p !in st.dirs ==> p <= d
    ensures r.Success? && Valid(st) ==> Valid(r.value)
    decreases |d|
  {
    if d == [] then Mkdir(st, d)
    else
      var head := Parent(d);
      var made := if head != [] && !Exists(st, head) then MakeDirs(st, head) else Success(st);
      match made
      case Success(st1) => Mkdir(st1, d)
      case Failure(FileExists(_)) => Mkdir(st, d)
      case Failure(e) => Failure(e)
  }

  /**
   * `shutil.copyfile(src, dst)`: the same-file check, then opening src for
   * reading, then opening dst for writing (creating or truncating it).
   */
  function CopyFile(st: FsState, src: Path, dst: Path): (r: Result<FsState, Error>)
    ensures r.Success? <==> src in st.files && !IsDir(st, src) && src != dst && !IsDir(st, dst) && IsDir(st, Parent(dst))
    ensures r.Success? ==> r.value.dirs == st.dirs && dst in r.value.files && r.value.files[dst] == st.files[src]
    ensures r.Success? ==> forall p :: p != dst ==> (p in r.value.files <==> p in st.files)
    ensures r.Success? ==> forall p :: p != dst && p in st.files ==> r.value.files[p] == st.files[p]
    ensures r.Success? && Valid(st) ==> Valid(r.value)
  {
    if src == dst && Exists(st, src) then Failure(SameFile(src))
    else if IsDir(st, src) then Failure(IsADirectory(src))
    else if src !in st.files then Failure(Unreachable(st, src))
    else if IsDir(st, dst) then Failure(IsADirectory(dst))
    else if !IsDir(st, Parent(dst)) then Failure(Unreachable(st, dst))
    else Success(st.(files := st.files[dst := st.files[src]]))
  }

  /** `open(p, "rb").read()` */
  function ReadFile(st: FsState, p: Path): (r: Result<Content, Error>)
    ensures r.Success? <==> p in st.files
    ensures r.Success? ==> r.value == st.files[p]
  {
    if p in st.files then Success(st.files[p])
    else if IsDir(st, p) then Failure(IsADirectory(p))
    else Failure(Unreachable(st, p))
  }

  /** `os.remove(p)`: unlinks a regular file; a directory gives EISDIR. */
  function Remove(st: FsState, p: Path): (r: Result<FsState, Error>)
    ensures r.Success? <==> p in st.files
    ensures r.Success? ==> r.value.dirs == st.dirs && r.value.files == st.files - {p}
    ensures r.Success? && Valid(st) ==> Valid(r.value)
  {
    if p in st.files then Success(st.(files := st.files - {p}))
    else if IsDir(st, p) then Failure(IsADirectory(p))
    else Failure(Unreachable(st, p))
  }

  /**
   * The editor process run on p: it leaves p holding whatever `editor` makes
   * of its current content (no effect when p is not a regular file).
   */
  function Edit(st: FsState, p: Path, editor: (Path, Content) -> Content): (r: FsState)
    ensures r.dirs == st.dirs && r.files.Keys == st.files.Keys
    ensures p in st.files ==> r.files[p] == editor(p, st.files[p])
    ensures forall q :: q in st.files && q != p ==> r.files[q] == st.files[q]
    ensures Valid(st) ==> Valid(r)
  {
    if p in st.files then st.(files := st.files[p := editor(p, st.files[p])]) else st
  }

  /** `os.scandir(d)`: the names of d's entries, in the order the OS yields them. */
  function ScanDir(st: FsState, d: Path, listing: (FsState, Path) -> seq<string>): (r: Result<seq<string>, Error>)
    ensures r.Success? <==> IsDir(st, d)
  {
    if IsDir(st, d) then Success(listing(st, d))
    else if IsFile(st, d) then Failure(NotADirectory(d))
    else Failure(Unreachable(st, d))
  }


  /** In a well-formed tree every proper ancestor of an existing path is a directory. */
  lemma {:induction false} AncestorsAreDirs(st: FsState, p: Path, k: nat)
    requires Valid(st) && Exists(st, p) && k < |p|
    ensures IsDir(st, p[..k])
    decreases |p| - k
  {
    var q := Parent(p);
    assert IsDir(st, q);
    if k < |q| {
      AncestorsAreDirs(st, q, k);
      assert q[..k] == p[..k];
    } else {
      assert p[..k] == q;
    }
  }

  /**
   * What `os.makedirs(d)` does in a well-formed tree: EEXIST when d already
   * exists, ENOTDIR when a regular file lies above d, and success otherwise.
   */
  lemma {:induction false} MakeDirsOutcome(st: FsState, d: Path)
    requires Valid(st)
    ensures Exists(st, d) ==> MakeDirs(st, d) == Failure(FileExists(d))
    ensures !Exists(st, d) && !FileAbove(st, d) ==> MakeDirs(st, d).Success?
    ensures !Exists(st, d) && FileAbove(st, d) ==> MakeDirs(st, d).Failure? && MakeDirs(st, d).error.NotADirectory?
    decreases |d|
  {
    if d != [] {
      var head := Parent(d);
      if Exists(st, d) {
        AncestorsAreDirs(st, d, |d| - 1);
      } else if head != [] && !Exists(st, head) {
        MakeDirsOutcome(st, head);
        if FileAbove(st, d) {
          var k :| 0 < k < |d| && d[..k] in st.files;
          assert k < |head| && head[..k] == d[..k];
          assert FileAbove(st, head);
        } else {
          assert !FileAbove(st, head) by {
            forall k | 0 < k < |head| ensures head[..k] !in st.files {
              assert head[..k] == d[..k];
            }
          }
          var st1 := MakeDirs(st, head).value;
          assert !(d <= head);
        }
      } else if head != [] && IsFile(st, head) {
        assert d[..|d| - 1] == head;
        assert FileAbove(st, d);
      } else if head != [] {
        assert !FileAbove(st, d) by {
          forall k | 0 < k < |d| ensures d[..k] !in st.files {
            if k < |head| {
              AncestorsAreDirs(st, head, k);
              assert head[..k] == d[..k];
            } else {
              assert d[..k] == head;
            }
          }
        }
      }
    }
  }
}
