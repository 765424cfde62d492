/**
 * The filesystem as mutable state: the object that the calls of the command
 * change in place. Each method performs one call of `Fs` on the current state.
 */
module Disk {
  import opened Wrappers
  import opened Fs

  /** What a call returns and the state it leaves: a call that raises changes nothing. */
  function Settle(st: FsState, r: Result<FsState, Error>): (Result<(), Error>, FsState) {
    match r
    case Success(next) => (Success(()), next)
    case Failure(e) => (Failure(e), st)
  }

  class FileSystem {
    var files: map<Path, Content>
    var dirs: set<Path>

    function State(): FsState
      reads this
    {
      FsState(files, dirs)
    }

    constructor (st: FsState)
      ensures State() == st
    {
      files := st.files;
      dirs := st.dirs;
    }

    /** Installs the state a call produced, or reports the exception it raised. */
    method Commit(r: Result<FsState, Error>) returns (o: Result<(), Error>)
      modifies this
      ensures (o, State()) == Settle(old(State()), r)
    {
      match r
      case Success(next) =>
        files, dirs := next.files, next.dirs;
        o := Success(());
      case Failure(e) =>
        o := Failure(e);
    }

    /** `os.makedirs(d)` */
    method MakeDirs(d: Path) returns (o: Result<(), Error>)
      modifies this
      ensures (o, State()) == Settle(old(State()), Fs.MakeDirs(old(State()), d))
    {
      o := Commit(Fs.MakeDirs(State(), d));
    }

    /** `shutil.copyfile(src, dst)` */
    method CopyFile(src: Path, dst: Path) returns (o: Result<(), Error>)
      modifies this
      ensures (o, State()) == Settle(old(State()), Fs.CopyFile(old(State()), src, dst))
    {
      o := Commit(Fs.CopyFile(State(), src, dst));
    }

    /** `os.remove(p)` */
    method Remove(p: Path) returns (o: Result<(), Error>)
      modifies this
      ensures (o, State()) == Settle(old(State()), Fs.Remove(old(State()), p))
    {
      o := Commit(Fs.Remove(State(), p));
    }

    /** `subprocess.call([editor, p])`: blocks until the editor exits; the exit code is ignored. */
    method RunEditor(p: Path, editor: (Path, Content) -> Content)
      modifies this
      ensures State() == Fs.Edit(old(State()), p, editor)
    {
      var next := Fs.Edit(State(), p, editor);
      files := next.files;
    }
  }
}
