/**
 * `file_name_without_extension`: the stem of a file name, computed by the
 * regular expression `^.*(?=\.[^\.]*$)` ("everything before the last dot").
 */
module Stem {
  import opened Wrappers

  /**
   * The lookahead `(?=\.[^\.]*$)` succeeds at position k of s: there is a dot
   * at k and no other dot after it up to the end of the string.
   */
  predicate LookaheadAt(s: string, k: nat) {
    k < |s| && s[k] == '.' && forall j :: k < j < |s| ==> s[j] != '.'
  }

  /**
   * The greedy `^.*` first consumes everything up to position k and then
   * backtracks one character at a time until the lookahead succeeds.
   */
  function Backtrack(s: string, k: nat): (r: Option<string>)
    requires k <= |s|
    ensures r.Some? ==> exists j :: 0 <= j <= k && LookaheadAt(s, j) && r.value == s[..j]
    ensures r.None? <==> forall j :: 0 <= j <= k ==> !LookaheadAt(s, j)
    decreases k
  {
    if LookaheadAt(s, k) then Some(s[..k])
    else if k == 0 then None
    else Backtrack(s, k - 1)
  }

  /**
   * `re.search(pattern, s)` returning the matched text, or `None` when there
   * is no match. `^` anchors the pattern at position 0, so only the match
   * starting there is tried.
   */
  function Search(s: string): (r: Option<string>)
    ensures r.Some? <==> '.' in s
    ensures r.Some? ==> |r.value| < |s| && r.value == s[..|r.value|] && s[|r.value|] == '.' && '.' !in s[|r.value| + 1..]
  {
    DotHasLastDot(s);
    Backtrack(s, |s|)
  }

  /** A name that contains a dot has a position where the lookahead succeeds. */
  lemma DotHasLastDot(s: string)
    ensures '.' in s ==> exists k :: 0 <= k < |s| && LookaheadAt(s, k)
  {
    if '.' in s {
      var i :| 0 <= i < |s| && s[i] == '.';
      LastDotExists(s, i);
    }
  }

  /**
   * The match object is truthy even when the matched text is empty, so
   * ".bashrc" gives "" rather than ".bashrc"; only a failed search returns
   * the name unchanged.
   */
  function FileNameWithoutExtension(filename: string): (r: string)
    ensures r <= filename
  {
    match Search(filename)
    case Some(m) => m
    case None => filename
  }

  /** At most one position satisfies the lookahead: it is the last dot. */
  lemma LookaheadUnique(s: string, j: nat, k: nat)
    requires LookaheadAt(s, j) && LookaheadAt(s, k)
    ensures j == k
  {
  }

  /** Every dot is followed, somewhere at or after it, by a last dot. */
  lemma {:induction false} LastDotExists(s: string, i: nat)
    requires i < |s| && s[i] == '.'
    ensures exists k :: i <= k < |s| && LookaheadAt(s, k)
    decreases |s| - i
  {
    if !LookaheadAt(s, i) {
      var j :| i < j < |s| && s[j] == '.';
      LastDotExists(s, j);
    }
  }

  /** When k is the position of the last dot, the stem is everything before it. */
  lemma StemAt(s: string, k: nat)
    requires LookaheadAt(s, k)
    ensures FileNameWithoutExtension(s) == s[..k]
  {
    var r := Backtrack(s, |s|);
    assert r.Some?;
    var j :| 0 <= j <= |s| && LookaheadAt(s, j) && r.value == s[..j];
    LookaheadUnique(s, j, k);
  }

  /**
   * The stem and the extension: a name with a dot is exactly the stem, the
   * last dot and an extension without dots; a name without a dot is its own
   * stem.
   */
  lemma StemSplitsAtLastDot(s: string)
    ensures '.' in s ==> exists ext :: s == FileNameWithoutExtension(s) + "." + ext && '.' !in ext
    ensures '.' !in s ==> FileNameWithoutExtension(s) == s
  {
    if '.' in s {
      var i :| 0 <= i < |s| && s[i] == '.';
      LastDotExists(s, i);
      var k :| i <= k < |s| && LookaheadAt(s, k);
      StemAt(s, k);
      var ext := s[k + 1..];
      assert s == s[..k] + "." + ext;
      assert forall c :: c in ext ==> c != '.' by {
        forall c | c in ext ensures c != '.' {
          var m :| 0 <= m < |ext| && ext[m] == c;
          assert s[k + 1 + m] == c;
        }
      }
    } else {
      assert forall j :: 0 <= j <= |s| ==> !LookaheadAt(s, j);
    }
  }

  /** The cases the stem rule is designed around. */
  lemma StemExamples()
    ensures FileNameWithoutExtension(".bashrc") == ""
    ensures FileNameWithoutExtension("a.tar.gz") == "a.tar"
    ensures FileNameWithoutExtension("daily.md") == "daily"
    ensures FileNameWithoutExtension("notes.") == "notes"
    ensures FileNameWithoutExtension("README") == "README"
  {
    StemAt(".bashrc", 0);
    StemAt("a.tar.gz", 5);
    StemAt("daily.md", 5);
    StemAt("notes.", 5);
    StemSplitsAtLastDot("README");
  }
}
