/** `get_template_file_path`: find a template by file name or by stem. */
module Locator {
  import opened Wrappers
  import opened Fs
  import Stem

  /** A directory entry matches a template name by its stem or by its whole name. */
  predicate Matches(entry: string, templateName: string)
    ensures templateName == entry ==> Matches(entry, templateName)
    ensures Matches(entry, templateName) ==> templateName <= entry
  {
    templateName == Stem.FileNameWithoutExtension(entry) || templateName == entry
  }

  /**
   * First-match search over the entries in the order they are listed; when
   * nothing matches, FileNotFoundError carries `join(templates_dir, name)`.
   */
  function Locate(templatesDir: Path, entries: seq<string>, templateName: string): (r: Result<Path, Error>)
    ensures r.Success? <==> exists i :: 0 <= i < |entries| && Matches(entries[i], templateName)
    ensures r.Success? ==> exists i ::
      && 0 <= i < |entries|
      && Matches(entries[i], templateName)
      && r.value == Join(templatesDir, entries[i])
      && forall j :: 0 <= j < i ==> !Matches(entries[j], templateName)
    ensures r.Failure? ==> r.error == FileNotFound(Join(templatesDir, templateName))
  {
    if entries == [] then Failure(FileNotFound(Join(templatesDir, templateName)))
    else if Matches(entries[0], templateName) then Success(Join(templatesDir, entries[0]))
    else
      var r := Locate(templatesDir, entries[1..], templateName);
      assert forall i :: 0 <= i < |entries| - 1 ==> entries[1..][i] == entries[i + 1];
      r
  }

  /**
   * The loop of `get_template_file_path`. The result of `os.path.isfile` is
   * thrown away in the source, so an entry that is a directory matches too.
   */
  method GetTemplateFilePath(templatesDir: Path, entries: seq<string>, templateName: string)
    returns (r: Result<Path, Error>)
    ensures r == Locate(templatesDir, entries, templateName)
    ensures r.Success? ==> exists i ::
      && 0 <= i < |entries|
      && Matches(entries[i], templateName)
      && r.value == Join(templatesDir, entries[i])
      && forall j :: 0 <= j < i ==> !Matches(entries[j], templateName)
    ensures r.Failure? ==> r.error == FileNotFound(Join(templatesDir, templateName))
    ensures r.Failure? ==> forall j :: 0 <= j < |entries| ==> !Matches(entries[j], templateName)
  {
    var i := 0;
    while i < |entries|
      invariant 0 <= i <= |entries|
      invariant Locate(templatesDir, entries[i..], templateName) == Locate(templatesDir, entries, templateName)
    {
      var file := entries[i];
      if templateName == Stem.FileNameWithoutExtension(file) || templateName == file {
        return Success(Join(templatesDir, file));
      }
      assert entries[i..][1..] == entries[i + 1..];
      i := i + 1;
    }
    r := Failure(FileNotFound(Join(templatesDir, templateName)));
  }

  /** A name given without its extension finds the template that has one. */
  lemma LocateDailyByStem(templatesDir: Path)
    ensures Locate(templatesDir, ["daily.md"], "daily") == Success(Join(templatesDir, "daily.md"))
    ensures Locate(templatesDir, ["weekly.md", "daily.md"], "daily") == Success(Join(templatesDir, "daily.md"))
    ensures Locate(templatesDir, ["daily.md"], "daily.md") == Success(Join(templatesDir, "daily.md"))
  {
    Stem.StemExamples();
    Stem.StemSplitsAtLastDot("weekly.md");
  }
}
