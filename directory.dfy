/** `check_directory(directory, create)`: make sure a directory exists. */
module Directory {
  import opened Wrappers
  import opened Fs
  import Disk

  /**
   * The decision `check_directory` takes on a given state: return when the
   * path exists and is a directory; otherwise `os.makedirs` it when `create`
   * is set, or raise FileNotFoundError(directory).
   */
  function CheckDirectoryOn(st: FsState, directory: Path, create: bool): (r: Result<FsState, Error>)
    ensures r.Success? ==> IsDir(r.value, directory) && r.value.files == st.files && st.dirs <= r.value.dirs
    ensures r.Success? ==> forall p :: p in r.value.dirs && p !in st.dirs ==> p <= directory
    ensures r.Success? && Valid(st) ==> Valid(r.value)
  {
    if Exists(st, directory) && IsDir(st, directory) then Success(st)
    else if create then MakeDirs(st, directory)
    else Failure(FileNotFound(directory))
  }

  /** The three outcomes of `check_directory`, and the two ways `os.makedirs` can fail. */
  lemma CheckDirectoryCases(st: FsState, directory: Path, create: bool)
    requires Valid(st)
    ensures IsDir(st, directory) ==> CheckDirectoryOn(st, directory, create) == Success(st)
    ensures !Exists(st, directory) && create && !FileAbove(st, directory) ==>
      var r := CheckDirectoryOn(st, directory, create);
      && r.Success?
      && IsDir(r.value, directory)
      && r.value.files == st.files
      && st.dirs <= r.value.dirs
      && (forall p :: p in r.value.dirs && p !in st.dirs ==> p <= directory)
    ensures !IsDir(st, directory) && !create ==> CheckDirectoryOn(st, directory, create) == Failure(FileNotFound(directory))
    ensures IsFile(st, directory) && create ==> CheckDirectoryOn(st, directory, create) == Failure(FileExists(directory))
    ensures !Exists(st, directory) && create && FileAbove(st, directory) ==>
      CheckDirectoryOn(st, directory, create).Failure? && CheckDirectoryOn(st, directory, create).error.NotADirectory?
  {
    MakeDirsOutcome(st, directory);
  }

  /** A directory with no regular file on its path is there afterwards when `create` is set. */
  lemma CheckDirectoryCreates(st: FsState, directory: Path)
    requires Valid(st) && NoFileOnPath(st, directory)
    ensures CheckDirectoryOn(st, directory, true).Success?
  {
    CheckDirectoryCases(st, directory, true);
    if directory != [] {
      assert directory[..|directory|] == directory;
      assert !IsFile(st, directory);
    }
    assert !FileAbove(st, directory);
  }

  method CheckDirectory(fs: Disk.FileSystem, directory: Path, create: bool) returns (r: Result<(), Error>)
    modifies fs
    ensures (r, fs.State()) == Disk.Settle(old(fs.State()), CheckDirectoryOn(old(fs.State()), directory, create))
  {
    if Exists(fs.State(), directory) {
      if IsDir(fs.State(), directory) {
        return Success(());
      }
    }
    if create {
      r := fs.MakeDirs(directory);
    } else {
      r := Failure(FileNotFound(directory));
    }
  }
}
