# note-template: a verified model of the note lifecycle

`note-template` creates a note from a named template. It looks the template up
in the templates directory, by full file name or by the name without its
extension. It copies the template to `notes_dir/<template>/<timestamp>`, hashes
the copy, and opens it in the user's editor. When `dont_save_note_if_no_changes`
is set and the hash has not changed after the editor exits, it removes the note.

This project models the decision logic of `note_template/cli.py` in Dafny,
with its I/O abstracted:

- `Stem`: `file_name_without_extension`, written as the backtracking search of
  the regular expression `^.*(?=\.[^\.]*$)`.
- `Locator`: `get_template_file_path`. It is a first-match scan over the
  entries of the templates directory, in the order `os.scandir` yields them.
- `Directory`: `check_directory`. The path is already a directory, is created
  with `os.makedirs`, or `FileNotFoundError` is raised.
- `Settings`: `filter_dictionary`, and the `update` of the configuration-file
  dictionary with the command-line values that are not `None`.
- `Fs`: the filesystem as a value. It maps paths to byte contents and holds a
  set of directories. `os.mkdir`, `os.makedirs` (written as CPython writes it),
  `shutil.copyfile`, `os.remove`, `open(...).read()` and `os.scandir` are
  functions from a state to a new state or to the exception raised.
- `Disk`: the same filesystem as a mutable object, `FileSystem`, whose methods
  perform those calls in place.
- `Lifecycle`: `commands` from line 122 on. First both directories are checked
  with `create=True`. Then, for each template name in argument order: locate,
  ensure `notes_dir/<name>`, copy, hash, edit, rehash, and possibly remove.
  The imperative methods (`Commands`, `ProcessTemplates`, `ProcessTemplate`)
  change a `FileSystem`. They are proved equal to the specification functions
  `CommandsOn`, `RunOn` and `StepOn`, and the lemmas are stated about those
  functions.

Some things are parameters instead of being modelled:

- The editor process is a function from the note's path and content to its
  new content.
- The SHA-512 hex digest is an arbitrary function from contents to strings.
  The model relies only on equal contents giving equal digests. No lemma
  assumes that different contents give different digests, except where a
  lemma states that assumption itself as a precondition.
- `datetime.now().isoformat()` is one given timestamp per template name.
- The names `os.scandir` yields, and their order, are a function of the
  filesystem state.

On these points the model follows the code:

- `create_default_directories` is never consulted. Lines 122-123 and 131 pass
  `create=True` literally. A missing templates directory is therefore created,
  not reported as an error.
- An exception while processing one template name ends the whole run. Later
  names are not processed.
- Entries are not filtered to regular files. A directory whose name matches is
  chosen, and the copy then raises.
- The first matching entry in scan order wins.

## Model

| member | source | states |
|---|---|---|
| `Stem.Backtrack` | note_template/cli.py:52 | The greedy `^.*` with the lookahead succeeds iff some position up to k holds a dot with no later dot; the match is the prefix before such a position |
| `Stem.FileNameWithoutExtension` | note_template/cli.py:51-55 | Whether or not the search succeeds, the stem is a prefix of the file name (what the prefix is: `StemAt`, `StemSplitsAtLastDot`) |
| `Stem.StemAt` | note_template/cli.py:51-55 | When k is the position of the last dot, the stem is exactly the part before it |
| `Stem.LastDotExists` | note_template/cli.py:52 | A name containing a dot has a last dot, at or after any dot in it |
| `Stem.StemSplitsAtLastDot` | note_template/cli.py:51-55 | A name with a dot is its stem, a dot and an extension that contains no dot; a name without a dot is returned unchanged |
| `Stem.StemExamples` | note_template/cli.py:51-55 | `.bashrc` gives `""`, `a.tar.gz` gives `a.tar`, `daily.md` gives `daily`, `notes.` gives `notes`, `README` stays `README` |
| `Stem.Search` | note_template/cli.py:52 | `re.search` finds a match iff the name contains a dot; the match is the prefix that ends right before a dot with no dot after it |
| `Locator.Matches` | note_template/cli.py:61-64 | An entry whose whole name is the template name matches; a name that matches is always a prefix of the entry's name |
| `Locator.Locate` | note_template/cli.py:58-67 | It succeeds iff some entry matches by stem or by full name; it returns `join(templates_dir, entry)` for the first such entry, and no earlier entry matches; otherwise it raises `FileNotFoundError(join(templates_dir, name))` |
| `Locator.GetTemplateFilePath` | note_template/cli.py:58-67 | The early-return loop over the entries returns the first matching entry's path, or reports not-found carrying `join(templates_dir, name)` when no entry matches |
| `Locator.LocateDailyByStem` | note_template/cli.py:61-65 | `daily` finds `daily.md`, also after a non-matching entry, and so does `daily.md` itself |
| `Fs.MakeDirs` | note_template/cli.py:75 | `os.makedirs` changes no file, leaves the path a directory, only adds directories on the way to that path, and keeps the tree well formed |
| `Fs.MakeDirsOutcome` | note_template/cli.py:75 | In a well-formed tree, `os.makedirs` raises `FileExistsError` when the path exists, raises `NotADirectoryError` when a file lies above it, and succeeds otherwise |
| `Fs.AncestorsAreDirs` | note_template/cli.py:71-72 | In a well-formed tree every ancestor of an existing path is a directory |
| `Fs.CopyFile` | note_template/cli.py:134 | `shutil.copyfile` succeeds iff the source is a regular file, differs from the destination, and the destination is not a directory but its parent is; the destination then holds the source's bytes (overwriting) and nothing else changes |
| `Fs.ReadFile` | note_template/cli.py:82-83 | Reading succeeds iff the path is a regular file, and yields its bytes |
| `Fs.Remove` | note_template/cli.py:141 | `os.remove` succeeds iff the path is a regular file, and removes only that file |
| `Fs.Edit` | note_template/cli.py:136 | The editor replaces the note's bytes by what it makes of them; no other file or directory changes |
| `Fs.ScanDir` | note_template/cli.py:59 | `os.scandir` succeeds iff the path is a directory |
| `Fs.Mkdir` | note_template/cli.py:75 | `os.mkdir` succeeds iff the path does not exist and its parent is a directory, and then adds just that directory; an existing path raises `FileExistsError` |
| `Disk.FileSystem.MakeDirs` | note_template/cli.py:75 | The object's new state is the state `os.makedirs` produces, or unchanged with the exception when it raises |
| `Disk.FileSystem.CopyFile` | note_template/cli.py:134 | The object's new state is the state `shutil.copyfile` produces, or unchanged with the exception |
| `Disk.FileSystem.Remove` | note_template/cli.py:141 | The object's new state is the state `os.remove` produces, or unchanged with the exception |
| `Disk.FileSystem.RunEditor` | note_template/cli.py:136 | The object's new state is the state the editor leaves; the exit code is not looked at |
| `Directory.CheckDirectoryOn` | note_template/cli.py:70-77 | On success the path is a directory, no file changes, and only directories on the way to the path are added; a well-formed tree stays well formed |
| `Directory.CheckDirectoryCases` | note_template/cli.py:70-77 | An existing directory: nothing changes. Missing with `create` and no file above: it is a directory afterwards and files are unchanged. Not a directory without `create`: `FileNotFoundError(directory)`. A file at the path with `create`: `FileExistsError`. A file above it: `NotADirectoryError` |
| `Directory.CheckDirectoryCreates` | note_template/cli.py:74-75 | With `create` and no regular file on the path, the check always succeeds |
| `Directory.CheckDirectory` | note_template/cli.py:70-77 | The method's outcome and the new filesystem state are exactly those of `CheckDirectoryOn` |
| `Settings.NonNoneIdempotent` | note_template/cli.py:87-92 | Filtering out `None` a second time changes nothing, and no `None` is left |
| `Settings.FilterDictionary` | note_template/cli.py:87-92 | The result holds exactly the keys whose value is not `None`, each with its value unchanged |
| `Settings.MergeCommandLine` | note_template/cli.py:118-119 | Every key with a non-`None` command-line value takes that value; every other key keeps its configuration-file value or stays absent |
| `Lifecycle.FileHash` | note_template/cli.py:80-84 | Hashing succeeds iff the path is a regular file, giving the digest of its bytes, so equal contents give equal digests |
| `Lifecycle.EditOn` | note_template/cli.py:135-141 | Hashing, editing and the retention decision add or remove no directory and keep the tree well formed; the note reported is the one edited |
| `Lifecycle.NotePath` | note_template/cli.py:130-133 | The note's path is `notes_dir` followed by exactly two components, the template name and the timestamp; its parent is `notes_dir/<name>` |
| `Lifecycle.StepOn` | note_template/cli.py:129-141 | Processing one name never removes a directory, adds directories only on the way to `notes_dir/<name>`, keeps the tree well formed, and a note it creates is at `notes_dir/<name>/<timestamp>` |
| `Lifecycle.RunWith` | note_template/cli.py:128 | A loop run that got through yields one note per name |
| `Lifecycle.RunOn` | note_template/cli.py:128-141 | A run of the loop over the names that got through yields exactly one note per name (their order: `RunInOrder`) |
| `Lifecycle.CommandsOn` | note_template/cli.py:122-141 | The whole command never removes a directory, keeps the tree well formed, and adds directories only on the way to the templates directory, the notes directory or `notes_dir/<name>` for one of the names |
| `Lifecycle.ProcessTemplate` | note_template/cli.py:129-141 | The loop body's result and the new filesystem state are exactly those of `StepOn` |
| `Lifecycle.ProcessTemplates` | note_template/cli.py:128-141 | The `for` loop's result and the new state are exactly those of `RunOn` |
| `Lifecycle.Commands` | note_template/cli.py:122-141 | The command's result and the new state are exactly those of `CommandsOn` |
| `Lifecycle.RunWithLast` | note_template/cli.py:128 | One more iteration of a loop that got through processes the next name from the state the earlier names left |
| `Lifecycle.RunInOrder` | note_template/cli.py:128-133 | The i-th note of a run is at `notes_dir/<names[i]>/<timestamps[i]>`, in argument order |
| `Lifecycle.RunKeepsTree` | note_template/cli.py:128-141 | A run never removes a directory, adds directories only on the way to `notes_dir/<name>` for one of its names, and keeps the tree well formed |
| `Lifecycle.RunSplit` | note_template/cli.py:128 | Processing names a then b equals processing a, then b from the state a left, with the notes concatenated |
| `Lifecycle.FailureEndsRun` | note_template/cli.py:128-129 | When the first k names end in an exception, the whole run equals that prefix's run |
| `Lifecycle.FailureStopsRun` | note_template/cli.py:128-129 | Once one name raises, appending later names changes neither the outcome nor the state |
| `Lifecycle.EditOnLaw` | note_template/cli.py:135-141 | On a note that exists, hashing, editing and pruning always succeed; the hash before editing is the note's; it is discarded iff pruning is on and the edited bytes hash the same, otherwise it holds the editor's output; no other file changes, and the only new directories lie on the way to `notes_dir/<name>` |
| `Lifecycle.RetentionLaw` | note_template/cli.py:129-141 | The template is the first match in the listing; the note at `notes_dir/<name>/<timestamp>` starts as the template's bytes, so the hash before editing is the template's hash; the note is discarded iff pruning is on and the edited bytes hash the same; otherwise it holds the editor's output; no other file changes, and the only new directories lie on the way to `notes_dir/<name>` |
| `Lifecycle.TemplateNotFound` | note_template/cli.py:66-67 | A name no entry matches raises `FileNotFoundError(join(templates_dir, name))` and the filesystem is unchanged |
| `Lifecycle.DirectoryEntryIsChosen` | note_template/cli.py:60-65 | When the first matching entry is a directory, it is chosen anyway; processing raises and writes no file |
| `Lifecycle.StepSucceeds` | note_template/cli.py:129-141 | Processing a name succeeds when the templates directory is a directory, its first matching entry is a regular file other than the note, no regular file blocks `notes_dir/<name>`, and no directory sits at the note's path |
| `Lifecycle.UntouchedNoteIsDiscarded` | note_template/cli.py:137-141 | With the template present as a regular file (`Ready`), an editor that writes nothing and pruning on: the step succeeds, the note is discarded, and its path is absent afterwards |
| `Lifecycle.AppendedNoteIsKept` | note_template/cli.py:137-139 | With the template present as a regular file (`Ready`), an editor that appends one byte, and a hash that tells those contents apart: the step succeeds, the note is kept, and it holds the template's bytes plus that byte |
| `Lifecycle.CommandsPreparesDirectories` | note_template/cli.py:122-123 | With no regular file in the way, the templates and notes directories exist at the end of the run, whatever happened to the templates |
| `Lifecycle.CommandsFailsBeforeTemplates` | note_template/cli.py:122 | When a regular file blocks the templates directory, the run raises before any template is processed and changes nothing |

## Left out

- The `Config` class, a pydantic `BaseSettings` (lines 33-48): the parsing of environment variables, the defaults and the type coercion are library behaviour. `Lifecycle.Config` holds three of the fields the command reads (`templates_dir`, `notes_dir`, `dont_save_note_if_no_changes`), given directly. The fourth, `config.editor` (line 136), is represented by `Env.editor`: what running that editor does to the note. The model does not derive them from the merged dictionary.
- The default directories from `appdirs` and the `NOTE_TEMPLATE_CONFIG_FILE` lookup (lines 18-28) are operating-system conventions.
- `read_config_file` (lines 95-99) is file I/O plus a TOML parser. Its dictionary is the `fileValues` parameter of `Settings.MergeCommandLine`.
- The click decorators and flag parsing (lines 102-116) are command-line plumbing. The command-line values are the `flags` parameter.
- The SHA-512 internals (lines 80-84) are replaced by an arbitrary function. Collision resistance is never assumed in general.
- `subprocess.call` (line 136): the editor is assumed to start, and to change only the note it is given. A failed launch is not modelled, and neither is an editor that deletes or creates files.
- `datetime.now().isoformat()` (line 132) is taken as a parameter, one reading per template name. Two equal readings overwrite the same note, as in the source.
- Logging and `pprint` (lines 124-127, 140) are output only.
- Paths are sequences of components, and `os.path.join` appends one component. These cases are not modelled:
  - an absolute second argument to `os.path.join`;
  - a template name containing a separator;
  - the empty template name. `os.path.join(notes_dir, "")` is `notes_dir/`, so the source writes the note at `notes_dir/<timestamp>`. The model instead creates a directory `notes_dir/""` and writes the note inside it. The empty name also matches an entry such as `.bashrc` by its empty stem, in both;
  - the names `.` and `..`, which the operating system resolves to the current or the parent directory, but which the model treats as ordinary components.
- File permissions, special files such as FIFOs in `shutil.copyfile`, and races with other processes are not modelled.
- The ENOENT/ENOTDIR choice for an unreachable path assumes a well-formed tree.
- The `.` of the regular expression does not match a newline. File names are assumed to contain no newlines.
- `Fs.ScanDir`: the names it yields are whatever the operating system's listing function gives. They are not constrained to be the directory's actual entries. A listed name that is not a regular file makes the copy raise.
- `Settings.FilterDictionary`: the insertion order of the resulting Python dictionary is not modelled, because Dafny maps are unordered.
