/**
 * src/filesSummary.ts: `getFilesSummaries` builds the table of changed
 * files, reuses a file's summary when a review comment already holds it,
 * and asks the completion service for the first file that has none, then
 * stops. `getOpenAISummaryForFile` guards the prompt length and falls back
 * to a fixed text when the answer has no choices.
 */
module FilesSummary {
  import opened Text
  import opened JsRecord
  import opened Shared

  /** An entry of the changed-files listing of the pull request. */
  datatype ChangedFile = ChangedFile(filename: string, sha: string, patch: Option<string>)

  /** A value of `modifiedFiles`: the blob sha and the patch. */
  datatype FileEntry = FileEntry(sha: string, diff: string)

  /** `{ sha: file.sha, diff: file.patch ?? '' }` */
  function EntryOf(f: ChangedFile): FileEntry {
    FileEntry(f.sha, f.patch.GetOr(""))
  }

  /** `modifiedFiles` once every changed file has been assigned, in order. */
  function FileTable(files: seq<ChangedFile>): Record<FileEntry>
    decreases |files|
  {
    if files == [] then []
    else
      var n := |files| - 1;
      Assign(FileTable(files[..n]), files[n].filename, EntryOf(files[n]))
  }

  /** The loop that fills `modifiedFiles`. */
  method BuildFileTable(files: seq<ChangedFile>) returns (modifiedFiles: Record<FileEntry>)
    ensures modifiedFiles == FileTable(files)
  {
    modifiedFiles := [];
    for i := 0 to |files|
      invariant modifiedFiles == FileTable(files[..i])
    {
      assert files[..i + 1][..i] == files[..i];
      modifiedFiles := Assign(modifiedFiles, files[i].filename, EntryOf(files[i]));
    }
    assert files[..|files|] == files;
  }

  /** The table has one entry per distinct filename. */
  lemma {:induction false} FileTableDistinct(files: seq<ChangedFile>)
    ensures DistinctKeys(FileTable(files))
    decreases |files|
  {
    if files != [] {
      var n := |files| - 1;
      FileTableDistinct(files[..n]);
      AssignDistinct(FileTable(files[..n]), files[n].filename, EntryOf(files[n]));
    }
  }

  /** Some changed file is named `k`. */
  predicate Lists(files: seq<ChangedFile>, k: string) {
    exists i :: 0 <= i < |files| && files[i].filename == k
  }

  /** A name is listed by a non-empty list exactly when it is listed by
      all but the last file, or is the last file's name. */
  lemma ListsSnoc(files: seq<ChangedFile>, k: string)
    requires files != []
    ensures Lists(files, k) <==> Lists(files[..|files| - 1], k) || files[|files| - 1].filename == k
  {
    var n := |files| - 1;
    if Lists(files, k) && files[n].filename != k {
      var i :| 0 <= i < |files| && files[i].filename == k;
      assert files[..n][i].filename == k;
    }
    if Lists(files[..n], k) {
      var i :| 0 <= i < n && files[..n][i].filename == k;
      assert files[i].filename == k;
    }
  }

  /** A name is a key of the table exactly when some changed file has it. */
  lemma {:induction false} FileTableHasKey(files: seq<ChangedFile>, k: string)
    ensures HasKey(FileTable(files), k) <==> Lists(files, k)
    decreases |files|
  {
    if files != [] {
      var n := |files| - 1;
      FileTableHasKey(files[..n], k);
      AssignGet(FileTable(files[..n]), files[n].filename, EntryOf(files[n]), k);
      ListsSnoc(files, k);
    }
  }

  /** A filename listed more than once keeps the sha and patch of its last
      listing. */
  lemma {:induction false} FileTableLastWins(files: seq<ChangedFile>, i: nat)
    requires i < |files| && forall j :: i < j < |files| ==> files[j].filename != files[i].filename
    ensures Get(FileTable(files), files[i].filename) == Some(EntryOf(files[i]))
    decreases |files|
  {
    var n := |files| - 1;
    var k := files[i].filename;
    var init := files[..n];
    var before := FileTable(init);
    assert FileTable(files) == Assign(before, files[n].filename, EntryOf(files[n]));
    AssignGet(before, files[n].filename, EntryOf(files[n]), k);
    if i < n {
      assert files[n].filename != k;
      LastListingOfInit(files, i);
      FileTableLastWins(init, i);
      assert init[i] == files[i];
      assert Get(before, k) == Some(EntryOf(files[i]));
    }
  }

  /** The last listing of a name before the last file is its last listing
      among all but the last file. */
  lemma LastListingOfInit(files: seq<ChangedFile>, i: nat)
    requires i + 1 < |files| && forall j :: i < j < |files| ==> files[j].filename != files[i].filename
    ensures var init := files[..|files| - 1];
      i < |init| && forall j :: i < j < |init| ==> init[j].filename != init[i].filename
  {
  }

  /** `GPT summary of <sha>:`, the text a review comment holding the summary
      of a blob contains. */
  function FileMarker(sha: string): string {
    "GPT summary of " + sha + ":"
  }

  /** The index of the first comment from `from` on that contains `marker`. */
  function FirstContaining(comments: seq<string>, marker: string, from: nat): (r: Option<nat>)
    ensures r.Some? ==> from <= r.value < |comments| && Contains(comments[r.value], marker)
    ensures forall j :: from <= j < |comments| && (r.None? || j < r.value) ==> !Contains(comments[j], marker)
    decreases |comments| - from
  {
    if from >= |comments| then None
    else if Contains(comments[from], marker) then Some(from)
    else FirstContaining(comments, marker, from + 1)
  }

  /** The summary a review comment already holds for a blob: the first
      comment containing the marker anywhere, without its first line. */
  function CachedSummary(comments: seq<string>, sha: string): (r: Option<string>)
    ensures r.None? <==> forall j :: 0 <= j < |comments| ==> !Contains(comments[j], FileMarker(sha))
    ensures r.Some? ==> exists j :: 0 <= j < |comments| && Contains(comments[j], FileMarker(sha)) &&
                                   (forall k :: 0 <= k < j ==> !Contains(comments[k], FileMarker(sha))) &&
                                   r.value == DropFirstLine(comments[j])
  {
    match FirstContaining(comments, FileMarker(sha), 0)
    case None => None
    case Some(j) => Some(DropFirstLine(comments[j]))
  }

  /** `openAIPrompt` of `getOpenAISummaryForFile`. */
  function FilePrompt(cfg: Config, filename: string, patch: string): string {
    cfg.filePrompt + "\n\nTHE GIT DIFF OF " + filename + " TO BE SUMMARIZED:\n```\n" + patch + "\n```\n\nANALYSIS:\n"
  }

  /** `getOpenAISummaryForFile`: it throws when the prompt is too long,
      before any request, and when the request fails; an answer without
      choices or whose first choice has no text gives `ErrorSummary`. */
  function FileSummary(cfg: Config, complete: Completer, filename: string, patch: string): (r: Result<string, Error>)
    ensures Utf16Length(FilePrompt(cfg, filename, patch)) > cfg.maxQueryLength ==> r == Failure(QueryTooBig)
    ensures Utf16Length(FilePrompt(cfg, filename, patch)) <= cfg.maxQueryLength ==>
      (r.Failure? <==> complete(FilePrompt(cfg, filename, patch)) == Failed)
    ensures r.Failure? ==> r.error == QueryTooBig || r.error == CompletionRequestFailed
    ensures var answer := complete(FilePrompt(cfg, filename, patch));
      Utf16Length(FilePrompt(cfg, filename, patch)) <= cfg.maxQueryLength ==>
        (answer.FirstChoice? && answer.text.Some? ==> r == Success(answer.text.value)) &&
        (answer.NoChoices? || answer == FirstChoice(None) ==> r == Success(ErrorSummary))
  {
    var prompt := FilePrompt(cfg, filename, patch);
    if Utf16Length(prompt) > cfg.maxQueryLength then Failure(QueryTooBig)
    else
      match complete(prompt)
      case Failed => Failure(CompletionRequestFailed)
      case NoChoices => Success(ErrorSummary)
      case FirstChoice(text) => Success(text.GetOr(ErrorSummary))
  }

  predicate IsCached(table: Record<FileEntry>, comments: seq<string>, i: nat)
    requires i < |table|
  {
    CachedSummary(comments, table[i].1.sha).Some?
  }

  predicate AllCachedBelow(table: Record<FileEntry>, comments: seq<string>, n: nat)
    requires n <= |table|
  {
    forall i :: 0 <= i < n ==> IsCached(table, comments, i)
  }

  /** The index of the first file without a cached summary, from `from` on,
      or the table's size when every one has one. */
  function FirstUncached(table: Record<FileEntry>, comments: seq<string>, from: nat): (n: nat)
    requires from <= |table| && AllCachedBelow(table, comments, from)
    ensures from <= n <= |table| && AllCachedBelow(table, comments, n)
    ensures n < |table| ==> !IsCached(table, comments, n)
    decreases |table| - from
  {
    if from == |table| || !IsCached(table, comments, from) then from
    else FirstUncached(table, comments, from + 1)
  }

  /** The entries the loop reuses from comments: the first `n` files, each
      with its cached summary. */
  function Reused(table: Record<FileEntry>, comments: seq<string>, n: nat): (r: Record<string>)
    requires n <= |table| && AllCachedBelow(table, comments, n)
  {
    seq(n, i requires 0 <= i < n && IsCached(table, comments, i) =>
      (table[i].0, CachedSummary(comments, table[i].1.sha).value))
  }

  /** What `getFilesSummaries` returns for a given table: the cached files
      before the first uncached one, then that one with a fresh summary; or
      every file, when all are cached; or the error `getOpenAISummaryForFile`
      throws. */
  function FilesSummaries(cfg: Config, complete: Completer, table: Record<FileEntry>, comments: seq<string>)
    : Result<Record<string>, Error>
  {
    var n := FirstUncached(table, comments, 0);
    if n == |table| then Success(Reused(table, comments, n))
    else
      match FileSummary(cfg, complete, table[n].0, table[n].1.diff)
      case Success(s) => Success(Reused(table, comments, n) + [(table[n].0, s)])
      case Failure(e) => Failure(e)
  }

  /** The search of `getFilesSummaries` through the review comments for
      one blob, which stops at the first comment containing the marker. */
  method FindReviewSummary(existingReviewSummaries: seq<string>, sha: string) returns (summary: Option<string>)
    ensures summary == CachedSummary(existingReviewSummaries, sha)
  {
    var expectedComment := FileMarker(sha);
    summary := None;
    var j := 0;
    while j < |existingReviewSummaries|
      invariant j <= |existingReviewSummaries|
      invariant FirstContaining(existingReviewSummaries, expectedComment, j) ==
                FirstContaining(existingReviewSummaries, expectedComment, 0)
      decreases |existingReviewSummaries| - j
    {
      if Contains(existingReviewSummaries[j], expectedComment) {
        summary := Some(DropFirstLine(existingReviewSummaries[j]));
        break;
      }
      j := j + 1;
    }
  }

  /** The reused entries grow one file at a time. */
  lemma ReusedSnoc(table: Record<FileEntry>, comments: seq<string>, i: nat)
    requires i < |table| && AllCachedBelow(table, comments, i) && IsCached(table, comments, i)
    ensures AllCachedBelow(table, comments, i + 1)
    ensures Reused(table, comments, i + 1) ==
            Reused(table, comments, i) + [(table[i].0, CachedSummary(comments, table[i].1.sha).value)]
  {
  }

  /** With distinct keys, the file at `i` is not yet among the reused ones. */
  lemma ReusedFresh(table: Record<FileEntry>, comments: seq<string>, i: nat)
    requires DistinctKeys(table) && i < |table| && AllCachedBelow(table, comments, i)
    ensures !HasKey(Reused(table, comments, i), table[i].0)
  {
    var acc := Reused(table, comments, i);
    forall k | 0 <= k < |acc|
      ensures acc[k].0 != table[i].0
    {
      assert acc[k].0 == table[k].0;
    }
  }

  /** `getFilesSummaries`, given the changed files and the bodies of the
      review comments (an absent body read as `''`). */
  method GetFilesSummaries(cfg: Config, complete: Completer, files: seq<ChangedFile>, existingReviewSummaries: seq<string>)
    returns (result: Result<Record<string>, Error>)
    ensures result == FilesSummaries(cfg, complete, FileTable(files), existingReviewSummaries)
  {
    var modifiedFiles := BuildFileTable(files);
    FileTableDistinct(files);
    ghost var n := FirstUncached(modifiedFiles, existingReviewSummaries, 0);
    var acc: Record<string> := [];
    var keys := Keys(modifiedFiles);
    var i := 0;
    while i < |keys|
      invariant i <= n && acc == Reused(modifiedFiles, existingReviewSummaries, i)
      decreases |keys| - i
    {
      var modifiedFile := keys[i];
      GetAt(modifiedFiles, i);
      var entry := Get(modifiedFiles, modifiedFile).value;
      var existing := FindReviewSummary(existingReviewSummaries, entry.sha);
      ReusedFresh(modifiedFiles, existingReviewSummaries, i);
      if existing.Some? {
        ReusedSnoc(modifiedFiles, existingReviewSummaries, i);
        acc := Assign(acc, modifiedFile, existing.value);
        i := i + 1;
        continue;
      }
      assert i == n by {
        assert !IsCached(modifiedFiles, existingReviewSummaries, i);
      }
      var fileAnalysisAndSummary := FileSummary(cfg, complete, modifiedFile, entry.diff);
      if fileAnalysisAndSummary.Failure? {
        return Failure(fileAnalysisAndSummary.error);
      }
      acc := Assign(acc, modifiedFile, fileAnalysisAndSummary.value);
      break;
    }
    result := Success(acc);
  }

  /** The result lists the changed files in table order, each at most once,
      stopping at the first file that needed a fresh summary: every entry
      but that one holds a summary taken from a comment. */
  lemma FilesSummariesShape(cfg: Config, complete: Completer, table: Record<FileEntry>, comments: seq<string>)
    requires FilesSummaries(cfg, complete, table, comments).Success?
    ensures var r := FilesSummaries(cfg, complete, table, comments).value;
      |r| <= |table| && (forall i :: 0 <= i < |r| ==> r[i].0 == table[i].0) &&
      (forall i :: 0 <= i < |r| - 1 ==> Some(r[i].1) == CachedSummary(comments, table[i].1.sha)) &&
      (|r| < |table| ==> !IsCached(table, comments, |r| - 1))
  {
    var n := FirstUncached(table, comments, 0);
    var r := FilesSummaries(cfg, complete, table, comments).value;
    assert r[..n] == Reused(table, comments, n);
    forall i | 0 <= i < |r| - 1
      ensures Some(r[i].1) == CachedSummary(comments, table[i].1.sha)
    {
      assert IsCached(table, comments, i);
    }
  }

  /** At most one request: two completion services that agree on the
      prompt of the first uncached file give the same result, and when every
      file is cached the service is not consulted at all. */
  lemma FilesSummariesOneRequest(cfg: Config, c1: Completer, c2: Completer, table: Record<FileEntry>, comments: seq<string>)
    requires var n := FirstUncached(table, comments, 0);
      n < |table| ==> c1(FilePrompt(cfg, table[n].0, table[n].1.diff)) == c2(FilePrompt(cfg, table[n].0, table[n].1.diff))
    ensures FilesSummaries(cfg, c1, table, comments) == FilesSummaries(cfg, c2, table, comments)
  {
  }
}
