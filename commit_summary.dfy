/**
 * src/commitSummary.ts: the commit stage. Each commit of the pull request
 * is summarized once: a summary already posted as a comment is reused,
 * a merge commit gets a fixed text, any other commit gets a completion for
 * its diff, whose `[path]` tokens are turned into links to the file blobs.
 * Fresh summaries are posted as comments, at most twenty per run, and
 * when the head commit was summarized afresh the pull-request summary is
 * posted with it.
 */
module CommitSummary {
  import opened Text
  import opened JsRecord
  import opened Shared
  import SummarizePr

  const MaxCommitsToSummarize := 20
  const MergeSummary := "Not generating summary for merge commits"

  /** The repository's owner login and name. */
  datatype Repository = Repository(owner: string, name: string)

  /** A file of the diff between a commit and its parent; `patch` is
      absent for a binary or too large file. */
  datatype DiffFile = DiffFile(filename: string, patch: Option<string>)

  /** What `getCommit` tells: whether `files` is present, and how many
      parents the commit has. */
  datatype CommitObject = CommitObject(filesPresent: bool, parentCount: nat)

  /** The diff of one file as the completion prompt shows it: two header
      lines, the patch, and a line break. */
  function FileDiff(filename: string, patch: string): string {
    "--- a/" + filename + "\n+++ b/" + filename + "\n" + patch + "\n"
  }

  /** `formatGitDiff`: the patch's lines are pushed one by one and joined
      again, which gives back the patch unchanged. */
  method FormatGitDiff(filename: string, patch: string) returns (r: string)
    ensures r == FileDiff(filename, patch)
  {
    var result := ["--- a/" + filename, "+++ b/" + filename];
    var lines := Split(patch, "\n");
    for i := 0 to |lines|
      invariant result == ["--- a/" + filename, "+++ b/" + filename] + lines[..i]
    {
      result := result + [lines[i]];
    }
    assert lines[..|lines|] == lines;
    result := result + [""];
    r := Join(result, "\n");
    JoinAppend(["--- a/" + filename, "+++ b/" + filename] + lines, [""], "\n");
    JoinAppend(["--- a/" + filename, "+++ b/" + filename], lines, "\n");
    JoinSplit(patch, "\n");
  }

  predicate AllPatches(files: seq<DiffFile>) {
    forall i :: 0 <= i < |files| ==> files[i].patch.Some?
  }

  function FileDiffs(files: seq<DiffFile>): seq<string>
    requires AllPatches(files)
  {
    seq(|files|, i requires 0 <= i < |files| => FileDiff(files[i].filename, files[i].patch.value))
  }

  /** `rawGitDiff`: the file diffs, one line break apart. A file without
      a patch makes `formatGitDiff` throw. */
  function RawGitDiff(files: seq<DiffFile>): Option<string> {
    if AllPatches(files) then Some(Join(FileDiffs(files), "\n")) else None
  }

  function FileNames(files: seq<DiffFile>): seq<string> {
    seq(|files|, i requires 0 <= i < |files| => files[i].filename)
  }

  /** `openAIPrompt` of `getOpenAICompletion`. */
  function CommitPrompt(cfg: Config, rawGitDiff: string): string {
    cfg.commitPriming + "\n\nA DIFF DO GIT A SER RESUMIDA:\n```\n" + rawGitDiff + "\n```\n\nO RESUMO:\n\nERROR:\n"
  }

  /** The token the completion is asked to write for a file. */
  function Token(f: string): string {
    "[" + f + "]"
  }

  /** The address of the file's blob at the commit. */
  function BlobUrl(repo: Repository, sha: string, f: string): string {
    "https://github.com/" + repo.owner + "/" + repo.name + "/blob/" + sha + "/" + f
  }

  /** The link a token becomes: the base name as text, the blob as target. */
  function LinkText(repo: Repository, sha: string, f: string): string {
    "[" + BaseName(f) + "](" + BlobUrl(repo, sha, f) + ")"
  }

  /** The summary once the tokens of the listed files are replaced by links,
      file after file in list order. */
  function Linkify(repo: Repository, sha: string, files: seq<string>, summary: string): string
    decreases |files|
  {
    if files == [] then summary
    else
      var n := |files| - 1;
      ReplaceAll(Linkify(repo, sha, files[..n], summary), Token(files[n]), LinkText(repo, sha, files[n]))
  }

  /** `postprocessSummary`. */
  method PostprocessSummary(filesList: seq<string>, summary: string, repo: Repository, sha: string) returns (r: string)
    ensures r == Linkify(repo, sha, filesList, summary)
  {
    r := summary;
    for i := 0 to |filesList|
      invariant r == Linkify(repo, sha, filesList[..i], summary)
    {
      assert filesList[..i + 1][..i] == filesList[..i];
      r := ReplaceAll(r, Token(filesList[i]), LinkText(repo, sha, filesList[i]));
    }
    assert filesList[..|filesList|] == filesList;
  }

  /** A summary in which no listed file's token occurs comes back unchanged. */
  lemma {:induction false} LinkifyNoTokens(repo: Repository, sha: string, files: seq<string>, summary: string)
    requires forall i :: 0 <= i < |files| ==> !Contains(summary, Token(files[i]))
    ensures Linkify(repo, sha, files, summary) == summary
    decreases |files|
  {
    if files != [] {
      var n := |files| - 1;
      LinkifyNoTokens(repo, sha, files[..n], summary);
      ReplaceAllAbsent(summary, Token(files[n]), LinkText(repo, sha, files[n]));
    }
  }

  /** `getOpenAICompletion`, which never throws: a failed diff request, a
      file without a patch, a prompt over the limit, a failed completion
      request or an answer without choices all leave `completion` as it
      came in. Otherwise the answer's first choice, with its tokens made
      links. */
  function CommitCompletion(cfg: Config, complete: Completer, repo: Repository, sha: string,
                            diff: Option<seq<DiffFile>>, completion: string): (r: string)
    ensures diff.None? ==> r == completion
    ensures diff.Some? && !AllPatches(diff.value) ==> r == completion
    ensures diff.Some? && AllPatches(diff.value) ==>
      var prompt := CommitPrompt(cfg, Join(FileDiffs(diff.value), "\n"));
      (Utf16Length(prompt) > cfg.maxQueryLength || !complete(prompt).FirstChoice? ==> r == completion) &&
      (Utf16Length(prompt) <= cfg.maxQueryLength && complete(prompt).FirstChoice? ==>
        r == Linkify(repo, sha, FileNames(diff.value), complete(prompt).text.GetOr(ErrorSummary)))
  {
    match diff
    case None => completion
    case Some(files) =>
      match RawGitDiff(files)
      case None => completion
      case Some(rawGitDiff) =>
        var prompt := CommitPrompt(cfg, rawGitDiff);
        if Utf16Length(prompt) > cfg.maxQueryLength then completion
        else
          match complete(prompt)
          case FirstChoice(text) => Linkify(repo, sha, FileNames(files), text.GetOr(ErrorSummary))
          case _ => completion
  }

  /** The loop that builds the prompt's diff, then the guard, the request
      and the post-processing. */
  method GetOpenAICompletion(cfg: Config, complete: Completer, repo: Repository, sha: string,
                             diff: Option<seq<DiffFile>>, completion: string) returns (r: string)
    ensures r == CommitCompletion(cfg, complete, repo, sha, diff, completion)
  {
    if diff.None? {
      return completion;
    }
    var files := diff.value;
    var parts: seq<string> := [];
    for i := 0 to |files|
      invariant AllPatches(files[..i]) && parts == FileDiffs(files[..i])
    {
      if files[i].patch.None? {
        assert !AllPatches(files);
        return completion;
      }
      var d := FormatGitDiff(files[i].filename, files[i].patch.value);
      assert files[..i + 1] == files[..i] + [files[i]];
      parts := parts + [d];
    }
    assert files[..|files|] == files;
    var rawGitDiff := Join(parts, "\n");
    var openAIPrompt := CommitPrompt(cfg, rawGitDiff);
    if Utf16Length(openAIPrompt) > cfg.maxQueryLength {
      return completion;
    }
    match complete(openAIPrompt)
    case FirstChoice(text) =>
      r := PostprocessSummary(FileNames(files), text.GetOr(ErrorSummary), repo, sha);
    case _ =>
      r := completion;
  }

  /** `GPT resumo do sha <sha>:`, the start a comment must have to be taken
      as the summary of a commit. */
  function LookupMarker(sha: string): string {
    "GPT resumo do sha " + sha + ":"
  }

  /** `GPT resumo de <sha>:`, how the comments this code posts begin. */
  function CommentHeader(sha: string): string {
    "GPT resumo de " + sha + ":"
  }

  /** Where a reused comment is cut, and what the head comment writes
      before the pull-request summary. */
  const LookupDelimiter := "PR resumo para:"
  const WrittenDelimiter := "PR resumo:"

  /** The comment posted for a freshly summarized commit. */
  function CommitComment(sha: string, completion: string): string {
    CommentHeader(sha) + "\n\n" + completion
  }

  /** The comment posted for the head commit, with the pull-request summary. */
  function HeadComment(head: string, headSummary: string, prSummary: string): string {
    CommentHeader(head) + "\n\n" + headSummary + "\n\n" + WrittenDelimiter + "\n\n" + prSummary
  }

  /** The index of the first comment from `from` on that starts with `marker`. */
  function FirstStartingWith(comments: seq<string>, marker: string, from: nat): (r: Option<nat>)
    ensures r.Some? ==> from <= r.value < |comments| && StartsWith(comments[r.value], marker)
    ensures forall j :: from <= j < |comments| && (r.None? || j < r.value) ==> !StartsWith(comments[j], marker)
    decreases |comments| - from
  {
    if from >= |comments| then None
    else if StartsWith(comments[from], marker) then Some(from)
    else FirstStartingWith(comments, marker, from + 1)
  }

  /** `comments.find(...)` with the anchored expression `^GPT resumo do sha <sha>:.*`
      (a sha holds no character the expression would treat specially). */
  function FindCommitComment(comments: seq<string>, sha: string): Option<nat> {
    FirstStartingWith(comments, LookupMarker(sha), 0)
  }

  /** The summary kept in a reused comment: the text before the first
      `PR resumo para:`, without its first line. */
  function CachedCommitSummary(body: string): (r: string)
    ensures !Contains(body, LookupDelimiter) ==> r == DropFirstLine(body)
    ensures forall i: nat :: FirstOccurrence(body, LookupDelimiter, i) ==> r == DropFirstLine(body[..i])
  {
    DropFirstLine(BeforeFirst(body, LookupDelimiter))
  }

  /** A comment the run posts: the commit it is attached to and its body. */
  datatype PostedComment = PostedComment(commitId: string, body: string)

  /** Everything a run learns from GitHub and the completion service: the
      head sha, the pull request's commits in listing order, the bodies of
      its comments (an absent body read as `""`), and the answers of
      `getCommit` and of the diff request for each commit (`None` when the
      diff request fails or its files are missing). */
  datatype Env = Env(
    cfg: Config,
    complete: Completer,
    repo: Repository,
    head: string,
    commits: seq<string>,
    comments: seq<string>,
    getCommit: string -> CommitObject,
    diff: string -> Option<seq<DiffFile>>)

  /** The summary of a commit that has no comment yet: `Files undefined`
      and a commit without parents abort the run; a merge commit is not
      sent to the completion service. */
  function FreshSummary(env: Env, sha: string): (r: Result<string, Error>)
    ensures r.Failure? <==> !env.getCommit(sha).filesPresent || env.getCommit(sha).parentCount == 0
  {
    var commitObject := env.getCommit(sha);
    if !commitObject.filesPresent then Failure(FilesUndefined)
    else if commitObject.parentCount == 0 then Failure(NoParent)
    else if commitObject.parentCount != 1 then Success(MergeSummary)
    else Success(CommitCompletion(env.cfg, env.complete, env.repo, sha, env.diff(sha), ErrorSummary))
  }

  /** The summary the run records for a commit: from its comment when
      there is one, fresh otherwise. */
  function SummaryOf(env: Env, sha: string): Result<string, Error> {
    match FindCommitComment(env.comments, sha)
    case Some(k) => Success(CachedCommitSummary(env.comments[k]))
    case None => FreshSummary(env, sha)
  }

  /** The body of the loop for a commit without a comment, from
      `getCommit` to the completion. */
  method SummarizeFreshCommit(env: Env, sha: string) returns (r: Result<string, Error>)
    ensures r == FreshSummary(env, sha)
  {
    var commitObject := env.getCommit(sha);
    if !commitObject.filesPresent {
      return Failure(FilesUndefined);
    }
    var isMergeCommit := commitObject.parentCount != 1;
    if commitObject.parentCount == 0 {
      return Failure(NoParent);
    }
    var completion := ErrorSummary;
    if !isMergeCommit {
      completion := GetOpenAICompletion(env.cfg, env.complete, env.repo, sha, env.diff(sha), completion);
    } else {
      completion := MergeSummary;
    }
    return Success(completion);
  }

  /** The variables of the loop: `commitSummaries`, the comments posted so
      far, `commitsSummarized` and `needsToSummarizeHead`. */
  datatype LoopState = LoopState(
    commitSummaries: seq<(string, string)>,
    posted: seq<PostedComment>,
    commitsSummarized: nat,
    needsToSummarizeHead: bool)

  /** Where the loop ends: its variables, and the error it threw, if any. */
  datatype Progress = Progress(state: LoopState, error: Option<Error>)

  /** The loop over the commits, from commit `i` on. */
  function Run(env: Env, i: nat, st: LoopState): Progress
    decreases |env.commits| - i
  {
    if i >= |env.commits| then Progress(st, None)
    else
      var sha := env.commits[i];
      match FindCommitComment(env.comments, sha)
      case Some(k) =>
        Run(env, i + 1, st.(commitSummaries := st.commitSummaries + [(sha, CachedCommitSummary(env.comments[k]))]))
      case None =>
        var needs := st.needsToSummarizeHead || sha == env.head;
        match FreshSummary(env, sha)
        case Failure(e) => Progress(st.(needsToSummarizeHead := needs), Some(e))
        case Success(completion) =>
          var next := LoopState(
            st.commitSummaries + [(sha, completion)],
            if sha != env.head then st.posted + [PostedComment(sha, CommitComment(sha, completion))] else st.posted,
            st.commitsSummarized + 1,
            needs);
          if next.commitsSummarized >= MaxCommitsToSummarize then Progress(next, None)
          else Run(env, i + 1, next)
  }

  /** One step of `Run` for a commit with a comment. */
  lemma RunCached(env: Env, i: nat, st: LoopState, k: nat)
    requires i < |env.commits| && FindCommitComment(env.comments, env.commits[i]) == Some(k)
    ensures Run(env, i, st) ==
      Run(env, i + 1, st.(commitSummaries := st.commitSummaries + [(env.commits[i], CachedCommitSummary(env.comments[k]))]))
  {
  }

  /** One step of `Run` for a commit whose fresh summary throws. */
  lemma RunFailed(env: Env, i: nat, st: LoopState, e: Error)
    requires i < |env.commits| && FindCommitComment(env.comments, env.commits[i]).None?
    requires FreshSummary(env, env.commits[i]) == Failure(e)
    ensures Run(env, i, st) ==
      Progress(st.(needsToSummarizeHead := st.needsToSummarizeHead || env.commits[i] == env.head), Some(e))
  {
  }

  /** The variables `next` after commit `i`, freshly summarized as
      `completion`, starting from `st`. */
  predicate FreshStep(env: Env, i: nat, st: LoopState, completion: string, next: LoopState)
    requires i < |env.commits|
  {
    var sha := env.commits[i];
    next.commitSummaries == st.commitSummaries + [(sha, completion)] &&
    next.posted == (if sha != env.head then st.posted + [PostedComment(sha, CommitComment(sha, completion))] else st.posted) &&
    next.commitsSummarized == st.commitsSummarized + 1 &&
    next.needsToSummarizeHead == (st.needsToSummarizeHead || sha == env.head)
  }

  /** One step of `Run` for a freshly summarized commit. */
  lemma RunFresh(env: Env, i: nat, st: LoopState, completion: string, next: LoopState)
    requires i < |env.commits| && FindCommitComment(env.comments, env.commits[i]).None?
    requires FreshSummary(env, env.commits[i]) == Success(completion)
    requires FreshStep(env, i, st, completion, next)
    ensures Run(env, i, st) == if next.commitsSummarized >= MaxCommitsToSummarize then Progress(next, None) else Run(env, i + 1, next)
  {
  }

  /** `commitSummaries.find(([sha]) => sha === head)`: the summary of the
      first pair with the sha. */
  function FindPair(pairs: seq<(string, string)>, sha: string): (r: Option<string>)
    ensures r.Some? ==> exists i :: 0 <= i < |pairs| && pairs[i] == (sha, r.value) &&
                                    forall j :: 0 <= j < i ==> pairs[j].0 != sha
    ensures r.None? ==> forall i :: 0 <= i < |pairs| ==> pairs[i].0 != sha
    decreases |pairs|
  {
    if pairs == [] then None
    else if pairs[0].0 == sha then Some(pairs[0].1)
    else
      var r := FindPair(pairs[1..], sha);
      if r.Some? then FirstPairShift(pairs, sha, r.value); r else r
  }

  /** A first pair with the sha in the tail, after a head with another sha,
      is the first in the whole list. */
  lemma FirstPairShift(pairs: seq<(string, string)>, sha: string, v: string)
    requires pairs != [] && pairs[0].0 != sha
    requires exists i :: 0 <= i < |pairs[1..]| && pairs[1..][i] == (sha, v) &&
                         forall j :: 0 <= j < i ==> pairs[1..][j].0 != sha
    ensures exists i :: 0 <= i < |pairs| && pairs[i] == (sha, v) &&
                        forall j :: 0 <= j < i ==> pairs[j].0 != sha
  {
    var i :| 0 <= i < |pairs[1..]| && pairs[1..][i] == (sha, v) &&
             forall j :: 0 <= j < i ==> pairs[1..][j].0 != sha;
    assert pairs[i + 1] == (sha, v);
    forall j | 0 <= j < i + 1 ensures pairs[j].0 != sha {
      if j > 0 {
        assert pairs[j] == pairs[1..][j - 1];
      }
    }
  }

  /** What `summarizeCommits` does: the comments it posts, in order, and
      what it returns or throws. */
  datatype Outcome = Outcome(posted: seq<PostedComment>, result: Result<seq<(string, string)>, Error>)

  /** What `summarizeCommits` does once its loop has ended with `run`:
      rethrow the error, or post the pull-request comment, whose summary
      is `prSummary`, when the head commit still needs one and has a pair.
      The completion service is a function here, so asking for the
      summary only when it is posted changes nothing. */
  function Finish(env: Env, run: Progress, prSummary: string): Outcome {
    match run.error
    case Some(e) => Outcome(run.state.posted, Failure(e))
    case None =>
      var st := run.state;
      var headCommitShaAndSummary := FindPair(st.commitSummaries, env.head);
      if st.needsToSummarizeHead && headCommitShaAndSummary.Some? then
        Outcome(st.posted + [PostedComment(env.head, HeadComment(env.head, headCommitShaAndSummary.value, prSummary))],
                Success(st.commitSummaries))
      else Outcome(st.posted, Success(st.commitSummaries))
  }

  function SummarizeCommitsSpec(env: Env, modifiedFilesSummaries: Record<string>): Outcome {
    var run := Run(env, 0, LoopState([], [], 0, false));
    Finish(env, run, SummarizePr.SummarizePr(env.cfg, env.complete, modifiedFilesSummaries, run.state.commitSummaries))
  }

  /** `summarizeCommits`. The calls that only fetch data are the fields of
      `env`; the comments it creates are returned in `posted`, which holds
      those created before an error as well. */
  method SummarizeCommits(env: Env, modifiedFilesSummaries: Record<string>)
    returns (posted: seq<PostedComment>, result: Result<seq<(string, string)>, Error>)
    ensures Outcome(posted, result) == SummarizeCommitsSpec(env, modifiedFilesSummaries)
  {
    var commitSummaries: seq<(string, string)> := [];
    posted := [];
    var commitsSummarized := 0;
    var needsToSummarizeHead := false;
    ghost var final := Run(env, 0, LoopState([], [], 0, false));
    var i := 0;
    while i < |env.commits|
      invariant i <= |env.commits|
      invariant Run(env, i, LoopState(commitSummaries, posted, commitsSummarized, needsToSummarizeHead)) == final
      decreases |env.commits| - i
    {
      ghost var st := LoopState(commitSummaries, posted, commitsSummarized, needsToSummarizeHead);
      var sha := env.commits[i];
      var existingComment := FindCommitComment(env.comments, sha);
      if existingComment.Some? {
        var summaryLines := CachedCommitSummary(env.comments[existingComment.value]);
        commitSummaries := commitSummaries + [(sha, summaryLines)];
        RunCached(env, i, st, existingComment.value);
        i := i + 1;
        continue;
      }
      if sha == env.head {
        needsToSummarizeHead := true;
      }
      var freshSummary := SummarizeFreshCommit(env, sha);
      if freshSummary.Failure? {
        RunFailed(env, i, st, freshSummary.error);
        result := Failure(freshSummary.error);
        return;
      }
      var completion := freshSummary.value;
      commitSummaries := commitSummaries + [(sha, completion)];
      if sha != env.head {
        posted := posted + [PostedComment(sha, CommitComment(sha, completion))];
      }
      commitsSummarized := commitsSummarized + 1;
      RunFresh(env, i, st, completion, LoopState(commitSummaries, posted, commitsSummarized, needsToSummarizeHead));
      if commitsSummarized >= MaxCommitsToSummarize {
        break;
      }
      i := i + 1;
    }
    assert final == Progress(LoopState(commitSummaries, posted, commitsSummarized, needsToSummarizeHead), None);
    var headCommitShaAndSummary := FindPair(commitSummaries, env.head);
    if needsToSummarizeHead && headCommitShaAndSummary.Some? {
      var prSummary := SummarizePr.SummarizePr(env.cfg, env.complete, modifiedFilesSummaries, commitSummaries);
      posted := posted + [PostedComment(env.head, HeadComment(env.head, headCommitShaAndSummary.value, prSummary))];
    }
    result := Success(commitSummaries);
  }

  /** Commit `i` has a comment the lookup accepts. */
  predicate IsCached(env: Env, i: nat)
    requires i < |env.commits|
  {
    FindCommitComment(env.comments, env.commits[i]).Some?
  }

  /** None of the first `n` commits makes the run throw. */
  predicate AllSummarized(env: Env, n: nat)
    requires n <= |env.commits|
  {
    forall i :: 0 <= i < n ==> SummaryOf(env, env.commits[i]).Success?
  }

  /** The pairs of the first `n` commits: each sha with its summary. */
  function PairsOf(env: Env, n: nat): seq<(string, string)>
    requires n <= |env.commits| && AllSummarized(env, n)
  {
    seq(n, i requires 0 <= i < n && SummaryOf(env, env.commits[i]).Success? =>
      (env.commits[i], SummaryOf(env, env.commits[i]).value))
  }

  /** How many of the first `n` commits have no comment. */
  function FreshCount(env: Env, n: nat): nat
    requires n <= |env.commits|
  {
    if n == 0 then 0 else FreshCount(env, n - 1) + (if IsCached(env, n - 1) then 0 else 1)
  }

  /** The comments due for the first `n` commits: one per commit without a
      comment that is not the head, in order. */
  function ExpectedPosts(env: Env, n: nat): seq<PostedComment>
    requires n <= |env.commits| && AllSummarized(env, n)
  {
    if n == 0 then []
    else
      var sha := env.commits[n - 1];
      ExpectedPosts(env, n - 1) +
      (if !IsCached(env, n - 1) && sha != env.head then [PostedComment(sha, CommitComment(sha, SummaryOf(env, sha).value))] else [])
  }

  /** The head commit is among the first `n` commits without a comment. */
  predicate HeadFresh(env: Env, n: nat)
    requires n <= |env.commits|
  {
    n > 0 && (HeadFresh(env, n - 1) || (env.commits[n - 1] == env.head && !IsCached(env, n - 1)))
  }

  /** The loop's variables after the first `|commitSummaries|` commits. */
  predicate Consistent(env: Env, st: LoopState) {
    var n := |st.commitSummaries|;
    n <= |env.commits| && AllSummarized(env, n) && st.commitSummaries == PairsOf(env, n) &&
    st.commitsSummarized == FreshCount(env, n) && st.posted == ExpectedPosts(env, n)
  }

  /** The pairs grow by one commit that does not throw. */
  lemma PairsSnoc(env: Env, i: nat)
    requires i < |env.commits| && AllSummarized(env, i) && SummaryOf(env, env.commits[i]).Success?
    ensures AllSummarized(env, i + 1)
    ensures PairsOf(env, i + 1) == PairsOf(env, i) + [(env.commits[i], SummaryOf(env, env.commits[i]).value)]
  {
    assert AllSummarized(env, i + 1);
    var a := PairsOf(env, i + 1);
    var b := PairsOf(env, i) + [(env.commits[i], SummaryOf(env, env.commits[i]).value)];
    forall j | 0 <= j <= i
      ensures a[j] == b[j]
    {
      if j < i {
        assert b[j] == PairsOf(env, i)[j];
      }
    }
  }

  /** A commit with a comment keeps the variables consistent. */
  lemma StepCached(env: Env, st: LoopState, k: nat)
    requires Consistent(env, st) && |st.commitSummaries| < |env.commits|
    requires FindCommitComment(env.comments, env.commits[|st.commitSummaries|]) == Some(k)
    ensures var i := |st.commitSummaries|;
      var next := st.(commitSummaries := st.commitSummaries + [(env.commits[i], CachedCommitSummary(env.comments[k]))]);
      Consistent(env, next) && HeadFresh(env, i + 1) == HeadFresh(env, i)
  {
    var i := |st.commitSummaries|;
    assert SummaryOf(env, env.commits[i]) == Success(CachedCommitSummary(env.comments[k]));
    PairsSnoc(env, i);
  }

  /** A freshly summarized commit keeps the variables consistent. */
  lemma StepFresh(env: Env, st: LoopState, c: string, next: LoopState)
    requires Consistent(env, st) && |st.commitSummaries| < |env.commits|
    requires FindCommitComment(env.comments, env.commits[|st.commitSummaries|]).None?
    requires FreshSummary(env, env.commits[|st.commitSummaries|]) == Success(c)
    requires FreshStep(env, |st.commitSummaries|, st, c, next)
    requires st.needsToSummarizeHead == HeadFresh(env, |st.commitSummaries|)
    ensures Consistent(env, next) && next.needsToSummarizeHead == HeadFresh(env, |next.commitSummaries|)
  {
    var i := |st.commitSummaries|;
    assert SummaryOf(env, env.commits[i]) == Success(c);
    PairsSnoc(env, i);
    assert !IsCached(env, i);
  }

  /** Where the loop may end: its variables are consistent, it counted at
      most twenty fresh commits, it stopped early only after the
      twentieth fresh commit, the twentieth fresh commit is the last one
      recorded, and it threw only for the commit right after
      those it recorded. */
  predicate ProperEnd(env: Env, r: Progress) {
    var n := |r.state.commitSummaries|;
    Consistent(env, r.state) && r.state.commitsSummarized <= MaxCommitsToSummarize &&
    (r.error.None? ==> r.state.needsToSummarizeHead == HeadFresh(env, n)) &&
    (r.error.None? && n < |env.commits| ==> r.state.commitsSummarized == MaxCommitsToSummarize) &&
    (r.error.None? && r.state.commitsSummarized == MaxCommitsToSummarize ==> n > 0 && !IsCached(env, n - 1)) &&
    (r.error.Some? ==> n < |env.commits| && r.state.commitsSummarized < MaxCommitsToSummarize &&
                       SummaryOf(env, env.commits[n]) == Failure(r.error.value))
  }

  /** The loop, started from consistent variables, ends properly. */
  lemma {:induction false} RunSpec(env: Env, i: nat, st: LoopState)
    requires i == |st.commitSummaries| && Consistent(env, st) && st.commitsSummarized < MaxCommitsToSummarize
    requires st.needsToSummarizeHead == HeadFresh(env, i)
    ensures ProperEnd(env, Run(env, i, st))
    decreases |env.commits| - i, 1
  {
    if i < |env.commits| {
      var sha := env.commits[i];
      var found := FindCommitComment(env.comments, sha);
      if found.Some? {
        RunSpecCached(env, i, st, found.value);
      } else if FreshSummary(env, sha).Failure? {
        RunFailed(env, i, st, FreshSummary(env, sha).error);
      } else {
        RunSpecFresh(env, i, st, FreshSummary(env, sha).value);
      }
    }
  }

  /** `RunSpec` for a commit with a comment. */
  lemma {:induction false} RunSpecCached(env: Env, i: nat, st: LoopState, k: nat)
    requires i == |st.commitSummaries| && Consistent(env, st) && st.commitsSummarized < MaxCommitsToSummarize
    requires st.needsToSummarizeHead == HeadFresh(env, i)
    requires i < |env.commits| && FindCommitComment(env.comments, env.commits[i]) == Some(k)
    ensures ProperEnd(env, Run(env, i, st))
    decreases |env.commits| - i, 0
  {
    var next := st.(commitSummaries := st.commitSummaries + [(env.commits[i], CachedCommitSummary(env.comments[k]))]);
    RunCached(env, i, st, k);
    StepCached(env, st, k);
    RunSpec(env, i + 1, next);
  }

  /** `RunSpec` for a commit summarized afresh. */
  lemma {:induction false} RunSpecFresh(env: Env, i: nat, st: LoopState, c: string)
    requires i == |st.commitSummaries| && Consistent(env, st) && st.commitsSummarized < MaxCommitsToSummarize
    requires st.needsToSummarizeHead == HeadFresh(env, i)
    requires i < |env.commits| && FindCommitComment(env.comments, env.commits[i]).None?
    requires FreshSummary(env, env.commits[i]) == Success(c)
    ensures ProperEnd(env, Run(env, i, st))
    decreases |env.commits| - i, 0
  {
    var sha := env.commits[i];
    var next := LoopState(
      st.commitSummaries + [(sha, c)],
      if sha != env.head then st.posted + [PostedComment(sha, CommitComment(sha, c))] else st.posted,
      st.commitsSummarized + 1,
      st.needsToSummarizeHead || sha == env.head);
    RunFresh(env, i, st, c, next);
    StepFresh(env, st, c, next);
    if next.commitsSummarized < MaxCommitsToSummarize {
      RunSpec(env, i + 1, next);
    } else {
      StopAfterFresh(env, i, next);
    }
  }

  /** Stopping right after the twentieth fresh summary ends properly. */
  lemma StopAfterFresh(env: Env, i: nat, next: LoopState)
    requires i < |env.commits| && !IsCached(env, i) && |next.commitSummaries| == i + 1
    requires Consistent(env, next) && next.needsToSummarizeHead == HeadFresh(env, i + 1)
    requires next.commitsSummarized == MaxCommitsToSummarize
    ensures ProperEnd(env, Progress(next, None))
  {
  }

  /** A fresh head is one of the commits. */
  lemma {:induction false} HeadFreshIndex(env: Env, n: nat)
    requires n <= |env.commits| && HeadFresh(env, n)
    ensures exists i :: 0 <= i < n && env.commits[i] == env.head
  {
    if !(env.commits[n - 1] == env.head) {
      HeadFreshIndex(env, n - 1);
    }
  }

  /** `summarizeCommits` returns one pair per commit it reaches, in listing
      order, each holding the commit's reused or fresh summary; it stops
      before the end only after its twentieth fresh summary, and a
      twentieth fresh summary is always its last pair. It posts one comment
      per fresh commit other than the head, in order, and the
      pull-request comment exactly when the head commit was summarized
      afresh. When it throws, it is at a commit whose summary throws, and
      the comments of the commits before it are posted. */
  lemma SummarizeCommitsCorrect(env: Env, modifiedFilesSummaries: Record<string>)
    ensures var o := SummarizeCommitsSpec(env, modifiedFilesSummaries);
      o.result.Success? ==>
        var pairs := o.result.value;
        var n := |pairs|;
        n <= |env.commits| && AllSummarized(env, n) && pairs == PairsOf(env, n) &&
        FreshCount(env, n) <= MaxCommitsToSummarize &&
        (n < |env.commits| ==> FreshCount(env, n) == MaxCommitsToSummarize) &&
        (FreshCount(env, n) == MaxCommitsToSummarize ==> n > 0 && !IsCached(env, n - 1)) &&
        (HeadFresh(env, n) ==>
          FindPair(pairs, env.head).Some? &&
          o.posted == ExpectedPosts(env, n) + [PostedComment(env.head,
            HeadComment(env.head, FindPair(pairs, env.head).value,
                        SummarizePr.SummarizePr(env.cfg, env.complete, modifiedFilesSummaries, pairs)))]) &&
        (!HeadFresh(env, n) ==> o.posted == ExpectedPosts(env, n))
    ensures var o := SummarizeCommitsSpec(env, modifiedFilesSummaries);
      o.result.Failure? ==>
        exists n :: 0 <= n < |env.commits| && AllSummarized(env, n) && FreshCount(env, n) < MaxCommitsToSummarize &&
          SummaryOf(env, env.commits[n]) == Failure(o.result.error) && o.posted == ExpectedPosts(env, n)
  {
    var init := LoopState([], [], 0, false);
    assert init.commitSummaries == PairsOf(env, 0);
    RunSpec(env, 0, init);
    var r := Run(env, 0, init);
    var prSummary := SummarizePr.SummarizePr(env.cfg, env.complete, modifiedFilesSummaries, r.state.commitSummaries);
    FinishCorrect(env, r, prSummary);
    var o := SummarizeCommitsSpec(env, modifiedFilesSummaries);
    assert o == Finish(env, r, prSummary);
    if o.result.Success? {
      assert o.result.value == r.state.commitSummaries;
    }
  }

  /** The end of `summarizeCommits`, after a loop that ended properly. */
  lemma FinishCorrect(env: Env, r: Progress, prSummary: string)
    requires ProperEnd(env, r)
    ensures var o := Finish(env, r, prSummary);
      o.result.Success? ==>
        var pairs := o.result.value;
        var n := |pairs|;
        n <= |env.commits| && AllSummarized(env, n) && pairs == PairsOf(env, n) &&
        FreshCount(env, n) <= MaxCommitsToSummarize &&
        (n < |env.commits| ==> FreshCount(env, n) == MaxCommitsToSummarize) &&
        (FreshCount(env, n) == MaxCommitsToSummarize ==> n > 0 && !IsCached(env, n - 1)) &&
        (HeadFresh(env, n) ==>
          FindPair(pairs, env.head).Some? &&
          o.posted == ExpectedPosts(env, n) + [PostedComment(env.head,
            HeadComment(env.head, FindPair(pairs, env.head).value,
                        prSummary))]) &&
        (!HeadFresh(env, n) ==> o.posted == ExpectedPosts(env, n))
    ensures var o := Finish(env, r, prSummary);
      o.result.Failure? ==>
        exists n :: 0 <= n < |env.commits| && AllSummarized(env, n) && FreshCount(env, n) < MaxCommitsToSummarize &&
          SummaryOf(env, env.commits[n]) == Failure(o.result.error) && o.posted == ExpectedPosts(env, n)
  {
    var st := r.state;
    var n := |st.commitSummaries|;
    var o := Finish(env, r, prSummary);
    if r.error.None? {
      assert o.result == Success(st.commitSummaries);
      if HeadFresh(env, n) {
        HeadFreshIndex(env, n);
        var i :| 0 <= i < n && env.commits[i] == env.head;
        assert st.commitSummaries[i].0 == env.head;
        var head := FindPair(st.commitSummaries, env.head);
        assert head.Some?;
        assert o.posted == st.posted + [PostedComment(env.head, HeadComment(env.head, head.value, prSummary))];
      } else {
        assert o.posted == st.posted;
      }
    } else {
      assert o.result == Failure(r.error.value) && o.posted == st.posted;
    }
  }

  /** Each commit without a comment adds at most one comment, and a fresh
      head adds none of its own: the comments due, plus the pull-request
      comment, are no more than the fresh commits. */
  lemma {:induction false} ExpectedPostsBound(env: Env, n: nat)
    requires n <= |env.commits| && AllSummarized(env, n)
    ensures |ExpectedPosts(env, n)| + (if HeadFresh(env, n) then 1 else 0) <= FreshCount(env, n)
  {
    if n > 0 {
      ExpectedPostsBound(env, n - 1);
    }
  }

  /** A run posts at most twenty comments. */
  lemma AtMostTwentyComments(env: Env, modifiedFilesSummaries: Record<string>)
    ensures |SummarizeCommitsSpec(env, modifiedFilesSummaries).posted| <= MaxCommitsToSummarize
  {
    SummarizeCommitsCorrect(env, modifiedFilesSummaries);
    var o := SummarizeCommitsSpec(env, modifiedFilesSummaries);
    match o.result
    case Success(pairs) =>
      ExpectedPostsBound(env, |pairs|);
    case Failure(e) =>
      var n :| 0 <= n < |env.commits| && AllSummarized(env, n) && FreshCount(env, n) < MaxCommitsToSummarize &&
        SummaryOf(env, env.commits[n]) == Failure(e) && o.posted == ExpectedPosts(env, n);
      ExpectedPostsBound(env, n);
  }

  /** How every comment this code posts begins. */
  const OwnPrefix := "GPT resumo de "

  /** The lookup never accepts a comment this code posted: the bodies it
      writes say `de`, the marker it looks for says `do sha`. */
  lemma OwnCommentNotFound(body: string, sha: string)
    requires StartsWith(body, OwnPrefix)
    ensures !StartsWith(body, LookupMarker(sha))
  {
    assert body[12] == OwnPrefix[12] == 'e';
    assert LookupMarker(sha)[12] == 'o';
  }

  lemma OwnBodies(sha: string, c: string, headSummary: string, prSummary: string)
    ensures StartsWith(CommitComment(sha, c), OwnPrefix)
    ensures StartsWith(HeadComment(sha, headSummary, prSummary), OwnPrefix)
  {
    assert CommitComment(sha, c)[..|OwnPrefix|] == OwnPrefix;
    assert HeadComment(sha, headSummary, prSummary)[..|OwnPrefix|] == OwnPrefix;
  }

  /** Comments appended after the others, none of which starts with
      `marker`, do not change which comment is found. */
  lemma {:induction false} FirstStartingWithAppend(comments: seq<string>, extra: seq<string>, marker: string, from: nat)
    requires forall j :: 0 <= j < |extra| ==> !StartsWith(extra[j], marker)
    ensures FirstStartingWith(comments + extra, marker, from) == FirstStartingWith(comments, marker, from)
    decreases |comments + extra| - from
  {
    var all := comments + extra;
    if from < |all| && !StartsWith(all[from], marker) {
      FirstStartingWithAppend(comments, extra, marker, from + 1);
    }
  }

  /** The bodies of some posted comments, in order. */
  function Bodies(posted: seq<PostedComment>): (r: seq<string>)
    ensures |r| == |posted| && forall j :: 0 <= j < |r| ==> r[j] == posted[j].body
  {
    seq(|posted|, j requires 0 <= j < |posted| => posted[j].body)
  }

  /** All bodies begin like the comments this code posts. */
  predicate AllOwn(bodies: seq<string>) {
    forall j :: 0 <= j < |bodies| ==> StartsWith(bodies[j], OwnPrefix)
  }

  /** The loop posts only comments of its own kind. */
  lemma {:induction false} RunPostsOwn(env: Env, i: nat, st: LoopState)
    requires AllOwn(Bodies(st.posted))
    ensures AllOwn(Bodies(Run(env, i, st).state.posted))
    decreases |env.commits| - i
  {
    if i < |env.commits| {
      var sha := env.commits[i];
      match FindCommitComment(env.comments, sha)
      case Some(k) =>
        RunPostsOwn(env, i + 1, st.(commitSummaries := st.commitSummaries + [(sha, CachedCommitSummary(env.comments[k]))]));
      case None =>
        match FreshSummary(env, sha)
        case Failure(e) =>
        case Success(c) =>
          var next := LoopState(
            st.commitSummaries + [(sha, c)],
            if sha != env.head then st.posted + [PostedComment(sha, CommitComment(sha, c))] else st.posted,
            st.commitsSummarized + 1,
            st.needsToSummarizeHead || sha == env.head);
          OwnBodies(sha, c, "", "");
          assert AllOwn(Bodies(next.posted));
          RunFresh(env, i, st, c, next);
          if next.commitsSummarized < MaxCommitsToSummarize {
            RunPostsOwn(env, i + 1, next);
          }
    }
  }

  /** Appending comments of this code's own kind leaves the loop as it was. */
  lemma {:induction false} RunIgnoresOwn(env: Env, extra: seq<string>, i: nat, st: LoopState)
    requires AllOwn(extra)
    ensures Run(env.(comments := env.comments + extra), i, st) == Run(env, i, st)
    decreases |env.commits| - i
  {
    var env' := env.(comments := env.comments + extra);
    if i < |env.commits| {
      var sha := env.commits[i];
      forall j | 0 <= j < |extra| ensures !StartsWith(extra[j], LookupMarker(sha)) {
        OwnCommentNotFound(extra[j], sha);
      }
      FirstStartingWithAppend(env.comments, extra, LookupMarker(sha), 0);
      assert FreshSummary(env', sha) == FreshSummary(env, sha);
      match FindCommitComment(env.comments, sha)
      case Some(k) =>
        assert env'.comments[k] == env.comments[k];
        RunIgnoresOwn(env, extra, i + 1, st.(commitSummaries := st.commitSummaries + [(sha, CachedCommitSummary(env.comments[k]))]));
      case None =>
        match FreshSummary(env, sha)
        case Failure(e) =>
        case Success(c) =>
          var next := LoopState(
            st.commitSummaries + [(sha, c)],
            if sha != env.head then st.posted + [PostedComment(sha, CommitComment(sha, c))] else st.posted,
            st.commitsSummarized + 1,
            st.needsToSummarizeHead || sha == env.head);
          RunFresh(env, i, st, c, next);
          RunFresh(env', i, st, c, next);
          if next.commitsSummarized < MaxCommitsToSummarize {
            RunIgnoresOwn(env, extra, i + 1, next);
          }
    }
  }

  /** A second run, on the comments the first one left behind, does
      exactly what the first did: it requests the same completions and
      posts the same comments again, since the lookup never matches a
      comment this code wrote. */
  lemma RerunIgnoresOwnComments(env: Env, modifiedFilesSummaries: Record<string>)
    ensures var o := SummarizeCommitsSpec(env, modifiedFilesSummaries);
      SummarizeCommitsSpec(env.(comments := env.comments + Bodies(o.posted)), modifiedFilesSummaries) == o
  {
    var o := SummarizeCommitsSpec(env, modifiedFilesSummaries);
    var init := LoopState([], [], 0, false);
    var run := Run(env, 0, init);
    RunPostsOwn(env, 0, init);
    if run.error.None? {
      var st := run.state;
      var h := FindPair(st.commitSummaries, env.head);
      if st.needsToSummarizeHead && h.Some? {
        var prSummary := SummarizePr.SummarizePr(env.cfg, env.complete, modifiedFilesSummaries, st.commitSummaries);
        OwnBodies(env.head, "", h.value, prSummary);
        assert Bodies(o.posted) == Bodies(st.posted) + [HeadComment(env.head, h.value, prSummary)];
      }
    }
    RunIgnoresOwn(env, Bodies(o.posted), 0, init);
  }

  /** A merge commit's summary is the fixed note, whatever the completion
      service and the diff would answer. */
  lemma MergeBypass(env: Env, sha: string, complete: Completer, diff: string -> Option<seq<DiffFile>>)
    requires env.getCommit(sha).filesPresent && env.getCommit(sha).parentCount >= 2
    ensures FreshSummary(env.(complete := complete, diff := diff), sha) == Success(MergeSummary)
  {
  }

  /** With every commit holding a comment, no commit is fresh and no
      comment is due. */
  lemma {:induction false} AllCachedNothingDue(env: Env, n: nat)
    requires n <= |env.commits| && forall i :: 0 <= i < |env.commits| ==> IsCached(env, i)
    ensures FreshCount(env, n) == 0 && !HeadFresh(env, n)
  {
    if n > 0 {
      AllCachedNothingDue(env, n - 1);
      assert IsCached(env, n - 1);
    }
  }

  lemma AllCachedSummarized(env: Env, n: nat)
    requires n <= |env.commits| && forall i :: 0 <= i < |env.commits| ==> IsCached(env, i)
    ensures AllSummarized(env, n)
  {
    forall i | 0 <= i < n ensures SummaryOf(env, env.commits[i]).Success? {
      assert IsCached(env, i);
    }
  }

  /** When every commit already has a comment, the run posts nothing and
      returns every commit with the summary kept in its comment. */
  lemma AllCachedPostsNothing(env: Env, modifiedFilesSummaries: Record<string>)
    requires forall i :: 0 <= i < |env.commits| ==> IsCached(env, i)
    ensures var o := SummarizeCommitsSpec(env, modifiedFilesSummaries);
      o.posted == [] && o.result.Success? && |o.result.value| == |env.commits| &&
      forall i :: 0 <= i < |env.commits| ==>
        var k := FindCommitComment(env.comments, env.commits[i]);
        k.Some? && o.result.value[i] == (env.commits[i], CachedCommitSummary(env.comments[k.value]))
  {
    var init := LoopState([], [], 0, false);
    assert init.commitSummaries == PairsOf(env, 0);
    RunSpec(env, 0, init);
    var r := Run(env, 0, init);
    AllCachedSummarized(env, |env.commits|);
    AllCachedNothingDue(env, |r.state.commitSummaries|);
    ExpectedPostsBound(env, |r.state.commitSummaries|);
    forall i | 0 <= i < |env.commits|
      ensures var k := FindCommitComment(env.comments, env.commits[i]);
        k.Some? && r.state.commitSummaries[i] == (env.commits[i], CachedCommitSummary(env.comments[k.value]))
    {
      assert IsCached(env, i);
    }
  }
}
