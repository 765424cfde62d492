/**
 * The body of `commands` once the configuration is built: make sure the
 * templates and notes directories exist, then for each template name in
 * argument order locate the template, copy it to
 * `notes_dir/<name>/<timestamp>`, hash it, run the editor, and, when
 * `dont_save_note_if_no_changes` is set and the hash did not change, remove
 * the note again. The first exception ends the run.
 */
module Lifecycle {
  import opened Wrappers
  import opened Fs
  import Disk
  import Directory
  import Locator

  /** The fields of the resolved configuration that the loop reads. */
  datatype Config = Config(templatesDir: Path, notesDir: Path, dontSaveNoteIfNoChanges: bool)

  /** What the outside world contributes to a run. */
  datatype Env = Env(
    listing: (FsState, Path) -> seq<string>,  // the names `os.scandir` yields, in its order
    editor: (Path, Content) -> Content,        // what the editor leaves in the note it was given
    hash: Content -> string)                   // the SHA-512 hex digest of a file's bytes

  /** The terminal states of one note. */
  datatype Fate = Kept | Discarded

  /** One processed template: where it came from, the note's path, the hash taken before editing, and its fate. */
  datatype Note = Note(template: Path, path: Path, digestBefore: string, fate: Fate)

  datatype StepResult = StepResult(fs: FsState, status: Result<Note, Error>)

  datatype RunResult = RunResult(fs: FsState, status: Result<seq<Note>, Error>)

  /** `notes_dir/<template_name>/<timestamp>` */
  function NotePath(cfg: Config, templateName: string, stamp: string): (r: Path)
    ensures |r| == |cfg.notesDir| + 2 && r[..|cfg.notesDir|] == cfg.notesDir
    ensures r[|cfg.notesDir|] == templateName && r[|cfg.notesDir| + 1] == stamp
    ensures r != [] && Parent(r) == Join(cfg.notesDir, templateName)
  {
    Join(Join(cfg.notesDir, templateName), stamp)
  }

  /** `file_hash(p)`: the digest of the bytes of p. */
  function FileHash(st: FsState, p: Path, hash: Content -> string): (r: Result<string, Error>)
    ensures r.Success? <==> p in st.files
    ensures r.Success? ==> r.value == hash(st.files[p])
  {
    match ReadFile(st, p)
    case Success(content) => Success(hash(content))
    case Failure(e) => Failure(e)
  }

  /** Lines 135-141: hash, edit, and keep or remove the note at notePath. */
  function EditOn(st: FsState, cfg: Config, env: Env, template: Path, notePath: Path): (r: StepResult)
    ensures r.fs.dirs == st.dirs
    ensures Valid(st) ==> Valid(r.fs)
    ensures r.status.Success? ==> r.status.value.template == template && r.status.value.path == notePath
  {
    match FileHash(st, notePath, env.hash)
    case Failure(e) => StepResult(st, Failure(e))
    case Success(oldHash) =>
      var edited := Edit(st, notePath, env.editor);
      if !cfg.dontSaveNoteIfNoChanges then StepResult(edited, Success(Note(template, notePath, oldHash, Kept)))
      else
        match FileHash(edited, notePath, env.hash)
        case Failure(e) => StepResult(edited, Failure(e))
        case Success(newHash) =>
          if newHash != oldHash then StepResult(edited, Success(Note(template, notePath, oldHash, Kept)))
          else
            match Remove(edited, notePath)
            case Failure(e) => StepResult(edited, Failure(e))
            case Success(removed) => StepResult(removed, Success(Note(template, notePath, oldHash, Discarded)))
  }

  /** Lines 129-141 for one template name and the timestamp read for it. */
  function StepOn(st: FsState, cfg: Config, env: Env, templateName: string, stamp: string): (r: StepResult)
    ensures st.dirs <= r.fs.dirs
    ensures forall p :: p in r.fs.dirs && p !in st.dirs ==> p <= Join(cfg.notesDir, templateName)
    ensures Valid(st) ==> Valid(r.fs)
    ensures r.status.Success? ==> r.status.value.path == NotePath(cfg, templateName, stamp)
  {
    match ScanDir(st, cfg.templatesDir, env.listing)
    case Failure(e) => StepResult(st, Failure(e))
    case Success(entries) =>
      match Locator.Locate(cfg.templatesDir, entries, templateName)
      case Failure(e) => StepResult(st, Failure(e))
      case Success(template) =>
        var noteTypeDir := Join(cfg.notesDir, templateName);
        match Directory.CheckDirectoryOn(st, noteTypeDir, true)
        case Failure(e) => StepResult(st, Failure(e))
        case Success(withDir) =>
          var notePath := Join(noteTypeDir, stamp);
          match CopyFile(withDir, template, notePath)
          case Failure(e) => StepResult(withDir, Failure(e))
          case Success(copied) => EditOn(copied, cfg, env, template, notePath)
  }

  /** What processing one template name does to a state, given the timestamp read for it. */
  type Step = (FsState, string, string) -> StepResult

  /** The step of the loop in `commands`. */
  function StepFn(cfg: Config, env: Env): Step {
    (st: FsState, templateName: string, stamp: string) => StepOn(st, cfg, env, templateName, stamp)
  }

  /**
   * A `for` loop over the template names: the names before the last one are
   * processed first and, only if none of them raised, the last one.
   */
  function RunWith(step: Step, st: FsState, names: seq<string>, stamps: seq<string>): (r: RunResult)
    requires |stamps| == |names|
    ensures r.status.Success? ==> |r.status.value| == |names|
    decreases |names|
  {
    if names == [] then RunResult(st, Success([]))
    else
      var last := |names| - 1;
      var done := RunWith(step, st, names[..last], stamps[..last]);
      match done.status
      case Failure(_) => done
      case Success(notes) =>
        var next := step(done.fs, names[last], stamps[last]);
        match next.status
        case Failure(e) => RunResult(next.fs, Failure(e))
        case Success(note) => RunResult(next.fs, Success(notes + [note]))
  }

  /** The loop of `commands` over the template names, in argument order. */
  function RunOn(st: FsState, cfg: Config, env: Env, names: seq<string>, stamps: seq<string>): (r: RunResult)
    requires |stamps| == |names|
    ensures r.status.Success? ==> |r.status.value| == |names|
  {
    RunWith(StepFn(cfg, env), st, names, stamps)
  }

  /** Every directory in `after` but not in `before` lies on the way to `notes_dir/<name>` for one of the names. */
  predicate OnlyNoteDirsAdded(before: set<Path>, after: set<Path>, cfg: Config, names: seq<string>) {
    forall p :: p in after && p !in before ==> exists i :: 0 <= i < |names| && p <= Join(cfg.notesDir, names[i])
  }

  /** Lines 122-141: both directories with `create=True`, then the loop. */
  function CommandsOn(st: FsState, cfg: Config, env: Env, names: seq<string>, stamps: seq<string>): (r: RunResult)
    requires |stamps| == |names|
    ensures st.dirs <= r.fs.dirs
    ensures forall p :: p in r.fs.dirs && p !in st.dirs ==>
      p <= cfg.templatesDir || p <= cfg.notesDir || exists i :: 0 <= i < |names| && p <= Join(cfg.notesDir, names[i])
    ensures Valid(st) ==> Valid(r.fs)
  {
    match Directory.CheckDirectoryOn(st, cfg.templatesDir, true)
    case Failure(e) => RunResult(st, Failure(e))
    case Success(withTemplates) =>
      match Directory.CheckDirectoryOn(withTemplates, cfg.notesDir, true)
      case Failure(e) => RunResult(withTemplates, Failure(e))
      case Success(withNotes) =>
        RunKeepsTree(withNotes, cfg, env, names, stamps);
        RunOn(withNotes, cfg, env, names, stamps)
  }

  /** The loop body of `commands` for one template name. */
  method ProcessTemplate(fs: Disk.FileSystem, cfg: Config, env: Env, templateName: string, stamp: string)
    returns (r: Result<Note, Error>)
    modifies fs
    ensures StepResult(fs.State(), r) == StepOn(old(fs.State()), cfg, env, templateName, stamp)
  {
    var entries :- ScanDir(fs.State(), cfg.templatesDir, env.listing);
    var templateFilePath :- Locator.GetTemplateFilePath(cfg.templatesDir, entries, templateName);
    var noteTypeDir := Join(cfg.notesDir, templateName);
    var made :- Directory.CheckDirectory(fs, noteTypeDir, true);
    var noteFilePath := Join(noteTypeDir, stamp);
    var copied :- fs.CopyFile(templateFilePath, noteFilePath);
    var hashedBefore := FileHash(fs.State(), noteFilePath, env.hash);
    assert hashedBefore.Success?;
    var oldFileHash := hashedBefore.value;
    fs.RunEditor(noteFilePath, env.editor);
    var fate := Kept;
    if cfg.dontSaveNoteIfNoChanges {
      var hashedAfter := FileHash(fs.State(), noteFilePath, env.hash);
      assert hashedAfter.Success?;
      if hashedAfter.value == oldFileHash {
        var removed := fs.Remove(noteFilePath);
        assert removed.Success?;
        fate := Discarded;
      }
    }
    r := Success(Note(templateFilePath, noteFilePath, oldFileHash, fate));
  }

  /** The `for` loop of `commands`: the notes processed are returned in argument order. */
  method ProcessTemplates(fs: Disk.FileSystem, cfg: Config, env: Env, names: seq<string>, stamps: seq<string>)
    returns (r: Result<seq<Note>, Error>)
    requires |stamps| == |names|
    modifies fs
    ensures RunResult(fs.State(), r) == RunOn(old(fs.State()), cfg, env, names, stamps)
  {
    ghost var start := fs.State();
    ghost var step := StepFn(cfg, env);
    var notes: seq<Note> := [];
    for i := 0 to |names|
      invariant RunWith(step, start, names[..i], stamps[..i]) == RunResult(fs.State(), Success(notes))
    {
      ghost var before := fs.State();
      RunWithLast(step, start, names, stamps, i);
      var note := ProcessTemplate(fs, cfg, env, names[i], stamps[i]);
      assert step(before, names[i], stamps[i]) == StepResult(fs.State(), note);
      if note.Failure? {
        FailureEndsRun(step, start, names, stamps, i + 1);
        return Failure(note.error);
      }
      notes := notes + [note.value];
    }
    assert names[..|names|] == names && stamps[..|stamps|] == stamps;
    r := Success(notes);
  }

  /** `commands` from line 122 on: both directories are checked with `create=True` before any template. */
  method Commands(fs: Disk.FileSystem, cfg: Config, env: Env, names: seq<string>, stamps: seq<string>)
    returns (r: Result<seq<Note>, Error>)
    requires |stamps| == |names|
    modifies fs
    ensures RunResult(fs.State(), r) == CommandsOn(old(fs.State()), cfg, env, names, stamps)
  {
    var templatesReady :- Directory.CheckDirectory(fs, cfg.templatesDir, true);
    var notesReady :- Directory.CheckDirectory(fs, cfg.notesDir, true);
    r := ProcessTemplates(fs, cfg, env, names, stamps);
  }

  /** One more iteration of a loop that got through so far. */
  lemma RunWithLast(step: Step, st: FsState, names: seq<string>, stamps: seq<string>, i: nat)
    requires |stamps| == |names| && i < |names|
    requires RunWith(step, st, names[..i], stamps[..i]).status.Success?
    ensures var done := RunWith(step, st, names[..i], stamps[..i]);
      var next := step(done.fs, names[i], stamps[i]);
      RunWith(step, st, names[..i + 1], stamps[..i + 1]) ==
        if next.status.Failure? then RunResult(next.fs, Failure(next.status.error))
        else RunResult(next.fs, Success(done.status.value + [next.status.value]))
  {
    assert names[..i + 1][..i] == names[..i] && stamps[..i + 1][..i] == stamps[..i];
  }

  /** A run that got through made one note per name, in argument order, each at its own path. */
  lemma {:induction false} RunInOrder(st: FsState, cfg: Config, env: Env, names: seq<string>, stamps: seq<string>)
    requires |stamps| == |names|
    requires RunOn(st, cfg, env, names, stamps).status.Success?
    ensures var notes := RunOn(st, cfg, env, names, stamps).status.value;
      forall i :: 0 <= i < |names| ==> notes[i].path == NotePath(cfg, names[i], stamps[i])
    decreases |names|
  {
    if names != [] {
      var last := |names| - 1;
      RunInOrder(st, cfg, env, names[..last], stamps[..last]);
      var done := RunOn(st, cfg, env, names[..last], stamps[..last]);
      var notes := RunOn(st, cfg, env, names, stamps).status.value;
      assert notes == done.status.value + [notes[last]];
      forall i | 0 <= i < |names| ensures notes[i].path == NotePath(cfg, names[i], stamps[i]) {
        if i < last {
          assert notes[i] == done.status.value[i];
          assert names[..last][i] == names[i] && stamps[..last][i] == stamps[i];
        }
      }
    }
  }

  /** No directory disappears during a run, and the tree stays well formed. */
  lemma {:induction false} RunKeepsTree(st: FsState, cfg: Config, env: Env, names: seq<string>, stamps: seq<string>)
    requires |stamps| == |names|
    ensures st.dirs <= RunOn(st, cfg, env, names, stamps).fs.dirs
    ensures OnlyNoteDirsAdded(st.dirs, RunOn(st, cfg, env, names, stamps).fs.dirs, cfg, names)
    ensures Valid(st) ==> Valid(RunOn(st, cfg, env, names, stamps).fs)
    decreases |names|
  {
    if names != [] {
      var last := |names| - 1;
      RunKeepsTree(st, cfg, env, names[..last], stamps[..last]);
      var done := RunOn(st, cfg, env, names[..last], stamps[..last]);
      var r := RunOn(st, cfg, env, names, stamps);
      forall p | p in r.fs.dirs && p !in st.dirs
        ensures exists i :: 0 <= i < |names| && p <= Join(cfg.notesDir, names[i])
      {
        if p in done.fs.dirs {
          var i :| 0 <= i < last && p <= Join(cfg.notesDir, names[..last][i]);
          assert names[..last][i] == names[i];
        } else {
          assert p <= Join(cfg.notesDir, names[last]);
        }
      }
    }
  }

  /** A run's notes, preceded by the notes of the names processed before it. */
  function After(earlier: seq<Note>, r: RunResult): RunResult {
    match r.status
    case Failure(e) => r
    case Success(notes) => RunResult(r.fs, Success(earlier + notes))
  }

  /**
   * Processing a list of names whose prefix got through is processing the
   * prefix and then the rest from the state the prefix left.
   */
  lemma {:induction false} RunSplit(step: Step, st: FsState, a: seq<string>, b: seq<string>, sa: seq<string>, sb: seq<string>)
    requires |sa| == |a| && |sb| == |b|
    requires RunWith(step, st, a, sa).status.Success?
    ensures var ra := RunWith(step, st, a, sa);
      RunWith(step, st, a + b, sa + sb) == After(ra.status.value, RunWith(step, ra.fs, b, sb))
    decreases |b|
  {
    var ra := RunWith(step, st, a, sa);
    if b == [] {
      assert a + b == a && sa + sb == sa;
      assert ra.status.value + [] == ra.status.value;
    } else {
      var last := |b| - 1;
      RunSplit(step, st, a, b[..last], sa, sb[..last]);
      assert (a + b)[..|a| + last] == a + b[..last];
      assert (sa + sb)[..|sa| + last] == sa + sb[..last];
      assert (a + b)[|a| + last] == b[last] && (sa + sb)[|sa| + last] == sb[last];
      var rb := RunWith(step, ra.fs, b[..last], sb[..last]);
      if rb.status.Success? {
        var next := step(rb.fs, b[last], sb[last]);
        if next.status.Success? {
          assert ra.status.value + (rb.status.value + [next.status.value])
            == (ra.status.value + rb.status.value) + [next.status.value];
        }
      }
    }
  }

  /** An exception while processing one name means no later name is processed. */
  lemma {:induction false} FailureStopsRun(step: Step, st: FsState, a: seq<string>, b: seq<string>, sa: seq<string>, sb: seq<string>)
    requires |sa| == |a| && |sb| == |b|
    requires RunWith(step, st, a, sa).status.Failure?
    ensures RunWith(step, st, a + b, sa + sb) == RunWith(step, st, a, sa)
    decreases |b|
  {
    if b == [] {
      assert a + b == a && sa + sb == sa;
    } else {
      var last := |b| - 1;
      FailureStopsRun(step, st, a, b[..last], sa, sb[..last]);
      assert (a + b)[..|a| + last] == a + b[..last];
      assert (sa + sb)[..|sa| + last] == sa + sb[..last];
    }
  }

  /** A run whose first k names end in an exception ends there, whatever names follow. */
  lemma FailureEndsRun(step: Step, st: FsState, names: seq<string>, stamps: seq<string>, k: nat)
    requires |stamps| == |names| && k <= |names|
    requires RunWith(step, st, names[..k], stamps[..k]).status.Failure?
    ensures RunWith(step, st, names, stamps) == RunWith(step, st, names[..k], stamps[..k])
  {
    FailureStopsRun(step, st, names[..k], names[k..], stamps[..k], stamps[k..]);
    assert names[..k] + names[k..] == names && stamps[..k] + stamps[k..] == stamps;
  }

  /**
   * Lines 135-141 on a note that exists: the hash before editing is that of
   * the copied bytes; the note is discarded exactly when pruning is on and
   * the edited bytes hash the same, and otherwise holds what the editor
   * left. No other file changes.
   */
  lemma EditOnLaw(st: FsState, cfg: Config, env: Env, template: Path, notePath: Path)
    requires notePath in st.files
    ensures var r := EditOn(st, cfg, env, template, notePath);
      var before := st.files[notePath];
      && r.status.Success?
      && r.status.value.digestBefore == env.hash(before)
      && (r.status.value.fate == Discarded <==>
            cfg.dontSaveNoteIfNoChanges && env.hash(env.editor(notePath, before)) == env.hash(before))
      && (r.status.value.fate == Discarded ==> notePath !in r.fs.files)
      && (r.status.value.fate == Kept ==> notePath in r.fs.files && r.fs.files[notePath] == env.editor(notePath, before))
      && (forall p :: p != notePath ==> (p in r.fs.files <==> p in st.files))
      && (forall p :: p != notePath && p in st.files ==> r.fs.files[p] == st.files[p])
  {
    var edited := Edit(st, notePath, env.editor);
    assert FileHash(st, notePath, env.hash) == Success(env.hash(st.files[notePath]));
    assert notePath in edited.files;
    assert FileHash(edited, notePath, env.hash) == Success(env.hash(edited.files[notePath]));
  }

  /**
   * The note lifecycle for one template: the template is the first entry of
   * the listing that matches; right after the copy the note holds the
   * template's bytes (overwriting whatever was at its path), so the hash
   * taken before editing is the template's hash; the note is discarded
   * exactly when pruning is on and the edited bytes hash the same, and
   * otherwise keeps what the editor left. No other file changes.
   */
  lemma RetentionLaw(st: FsState, cfg: Config, env: Env, templateName: string, stamp: string)
    requires StepOn(st, cfg, env, templateName, stamp).status.Success?
    ensures var r := StepOn(st, cfg, env, templateName, stamp);
      var note := r.status.value;
      && IsDir(st, cfg.templatesDir)
      && Locator.Locate(cfg.templatesDir, env.listing(st, cfg.templatesDir), templateName) == Success(note.template)
      && note.path == NotePath(cfg, templateName, stamp)
      && note.template in st.files
      && note.digestBefore == env.hash(st.files[note.template])
      && (note.fate == Discarded <==>
            cfg.dontSaveNoteIfNoChanges && env.hash(env.editor(note.path, st.files[note.template])) == note.digestBefore)
      && st.dirs <= r.fs.dirs
      && (forall p :: p in r.fs.dirs && p !in st.dirs ==> p <= Join(cfg.notesDir, templateName))
      && (note.fate == Discarded ==> note.path !in r.fs.files)
      && (note.fate == Kept ==> note.path in r.fs.files && r.fs.files[note.path] == env.editor(note.path, st.files[note.template]))
      && (forall p :: p != note.path ==> (p in r.fs.files <==> p in st.files))
      && (forall p :: p != note.path && p in st.files ==> r.fs.files[p] == st.files[p])
  {
    var entries := ScanDir(st, cfg.templatesDir, env.listing).value;
    var template := Locator.Locate(cfg.templatesDir, entries, templateName).value;
    var noteTypeDir := Join(cfg.notesDir, templateName);
    var withDir := Directory.CheckDirectoryOn(st, noteTypeDir, true).value;
    var notePath := Join(noteTypeDir, stamp);
    var copied := CopyFile(withDir, template, notePath).value;
    assert StepOn(st, cfg, env, templateName, stamp) == EditOn(copied, cfg, env, template, notePath);
    assert copied.files[notePath] == st.files[template];
    EditOnLaw(copied, cfg, env, template, notePath);
  }

  /**
   * The conditions under which one template name gets through lines 129-141:
   * the templates directory can be listed, its first matching entry is a
   * regular file other than the note itself, no regular file blocks
   * `notes_dir/<name>`, and no directory sits where the note goes.
   */
  predicate Ready(st: FsState, cfg: Config, env: Env, templateName: string, stamp: string) {
    && Valid(st)
    && IsDir(st, cfg.templatesDir)
    && var found := Locator.Locate(cfg.templatesDir, env.listing(st, cfg.templatesDir), templateName);
    && found.Success?
    && found.value in st.files
    && found.value != NotePath(cfg, templateName, stamp)
    && NoFileOnPath(st, Join(cfg.notesDir, templateName))
    && !IsDir(st, NotePath(cfg, templateName, stamp))
  }

  /** Under those conditions processing the name succeeds. */
  lemma StepSucceeds(st: FsState, cfg: Config, env: Env, templateName: string, stamp: string)
    requires Ready(st, cfg, env, templateName, stamp)
    ensures StepOn(st, cfg, env, templateName, stamp).status.Success?
  {
    var entries := ScanDir(st, cfg.templatesDir, env.listing).value;
    var template := Locator.Locate(cfg.templatesDir, entries, templateName).value;
    var noteTypeDir := Join(cfg.notesDir, templateName);
    Directory.CheckDirectoryCreates(st, noteTypeDir);
    var withDir := Directory.CheckDirectoryOn(st, noteTypeDir, true).value;
    var notePath := Join(noteTypeDir, stamp);
    assert notePath !in withDir.dirs;
    assert template != [] && template !in withDir.dirs;
    var copied := CopyFile(withDir, template, notePath).value;
    assert StepOn(st, cfg, env, templateName, stamp) == EditOn(copied, cfg, env, template, notePath);
    EditOnLaw(copied, cfg, env, template, notePath);
  }

  /** A name that no entry matches raises FileNotFoundError(join(templates_dir, name)) and changes nothing. */
  lemma TemplateNotFound(st: FsState, cfg: Config, env: Env, templateName: string, stamp: string)
    requires IsDir(st, cfg.templatesDir)
    requires var entries := env.listing(st, cfg.templatesDir);
      forall i :: 0 <= i < |entries| ==> !Locator.Matches(entries[i], templateName)
    ensures StepOn(st, cfg, env, templateName, stamp) == StepResult(st, Failure(FileNotFound(Join(cfg.templatesDir, templateName))))
  {
  }

  /**
   * The `os.path.isfile` result is discarded: when the first matching entry
   * is a directory, it is still chosen, the copy raises, and no note is
   * written, even if a later entry is a regular file that matches.
   */
  lemma DirectoryEntryIsChosen(st: FsState, cfg: Config, env: Env, templateName: string, stamp: string)
    requires IsDir(st, cfg.templatesDir)
    requires var found := Locator.Locate(cfg.templatesDir, env.listing(st, cfg.templatesDir), templateName);
      found.Success? && IsDir(st, found.value)
    ensures StepOn(st, cfg, env, templateName, stamp).status.Failure?
    ensures StepOn(st, cfg, env, templateName, stamp).fs.files == st.files
  {
  }

  /** An editor that exits without writing: with pruning on, the note is gone afterwards. */
  lemma UntouchedNoteIsDiscarded(st: FsState, cfg: Config, env: Env, templateName: string, stamp: string)
    requires cfg.dontSaveNoteIfNoChanges
    requires forall p, c :: env.editor(p, c) == c
    requires Ready(st, cfg, env, templateName, stamp)
    ensures var r := StepOn(st, cfg, env, templateName, stamp);
      r.status.Success? && r.status.value.fate == Discarded && NotePath(cfg, templateName, stamp) !in r.fs.files
  {
    StepSucceeds(st, cfg, env, templateName, stamp);
    RetentionLaw(st, cfg, env, templateName, stamp);
  }

  /**
   * An editor that appends one byte, with a hash that tells the two contents
   * apart: the note stays and ends with that byte.
   */
  lemma AppendedNoteIsKept(st: FsState, cfg: Config, env: Env, templateName: string, stamp: string, b: byte)
    requires forall p, c :: env.editor(p, c) == c + [b]
    requires forall c :: env.hash(c + [b]) != env.hash(c)
    requires Ready(st, cfg, env, templateName, stamp)
    ensures var r := StepOn(st, cfg, env, templateName, stamp);
      var path := NotePath(cfg, templateName, stamp);
      && r.status.Success?
      && r.status.value.fate == Kept
      && path in r.fs.files
      && r.fs.files[path] == st.files[r.status.value.template] + [b]
  {
    StepSucceeds(st, cfg, env, templateName, stamp);
    RetentionLaw(st, cfg, env, templateName, stamp);
  }

  /**
   * Both directories are checked with `create=True` whatever the
   * configuration says; when no regular file stands on their paths they exist
   * at the end of the run, whether or not a template failed.
   */
  lemma CommandsPreparesDirectories(st: FsState, cfg: Config, env: Env, names: seq<string>, stamps: seq<string>)
    requires |stamps| == |names|
    requires Valid(st) && NoFileOnPath(st, cfg.templatesDir) && NoFileOnPath(st, cfg.notesDir)
    ensures var r := CommandsOn(st, cfg, env, names, stamps);
      IsDir(r.fs, cfg.templatesDir) && IsDir(r.fs, cfg.notesDir) && Valid(r.fs)
  {
    Directory.CheckDirectoryCreates(st, cfg.templatesDir);
    var withTemplates := Directory.CheckDirectoryOn(st, cfg.templatesDir, true).value;
    Directory.CheckDirectoryCreates(withTemplates, cfg.notesDir);
    var withNotes := Directory.CheckDirectoryOn(withTemplates, cfg.notesDir, true).value;
    RunKeepsTree(withNotes, cfg, env, names, stamps);
  }

  /**
   * When the templates directory cannot be made (a regular file is in the
   * way), the run raises before any template is looked at and changes nothing.
   */
  lemma CommandsFailsBeforeTemplates(st: FsState, cfg: Config, env: Env, names: seq<string>, stamps: seq<string>)
    requires |stamps| == |names|
    requires Valid(st) && !NoFileOnPath(st, cfg.templatesDir)
    ensures CommandsOn(st, cfg, env, names, stamps).status.Failure?
    ensures CommandsOn(st, cfg, env, names, stamps).fs == st
  {
    Directory.CheckDirectoryCases(st, cfg.templatesDir, true);
    var k :| 0 < k <= |cfg.templatesDir| && cfg.templatesDir[..k] in st.files;
    if k == |cfg.templatesDir| {
      assert cfg.templatesDir[..k] == cfg.templatesDir;
    } else {
      assert FileAbove(st, cfg.templatesDir);
      if Exists(st, cfg.templatesDir) {
        AncestorsAreDirs(st, cfg.templatesDir, k);
      }
    }
  }
}
