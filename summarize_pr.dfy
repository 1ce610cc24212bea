/**
 * src/summarizePr.ts: collapsing GitHub blob links in commit summaries back
 * to `[path]` tokens (`preprocessCommitMessage`), and the pull-request
 * summary (`summarizePr`): a prompt of numbered commit sections and file
 * sections, a length guard and a fallback text for every failure.
 */
module SummarizePr {
  import opened Text
  import opened LinkRegex
  import opened JsRecord
  import opened Shared

  /** One iteration of the loop of `preprocessCommitMessage`:
      `commitMessage.split(match[0]).join("[" + match[1] + "]")`. The text
      put in place of the link is shorter than the link itself. */
  function CollapseOnce(s: string, m: Match): (r: string)
    requires IsMatchIn(s, m)
    ensures |r| < |s|
    ensures r == Join(Split(s, Whole(s, m)), "[" + Capture(s, m) + "]")
  {
    var w := Whole(s, m);
    var c := "[" + Capture(s, m) + "]";
    assert OccursAt(s, w, m.start);
    ReplaceAllShrinks(s, w, c);
    ReplaceAllIsSplitJoin(s, w, c);
    ReplaceAll(s, w, c)
  }

  /** The message once no link is left: each step collapses the leftmost
      match and every other occurrence of the same text. */
  function CollapseLinks(s: string): (r: string)
    ensures |r| <= |s|
    decreases |s|
  {
    match FindLink(s)
    case None => s
    case Some(m) => CollapseLinks(CollapseOnce(s, m))
  }

  /** `preprocessCommitMessage`: the loop ends, and when it does the
      expression no longer matches. */
  method PreprocessCommitMessage(commitMessage: string) returns (r: string)
    ensures r == CollapseLinks(commitMessage)
    ensures !HasLink(r)
  {
    r := commitMessage;
    var m := FindLink(r);
    while m.Some?
      invariant m == FindLink(r)
      invariant CollapseLinks(r) == CollapseLinks(commitMessage)
      decreases |r|
    {
      r := CollapseOnce(r, m.value);
      m := FindLink(r);
    }
    FindLinkComplete(r);
  }

  /** No link is left in the result. */
  lemma {:induction false} CollapseLinksNoLink(s: string)
    ensures !HasLink(CollapseLinks(s))
    decreases |s|
  {
    FindLinkComplete(s);
    match FindLink(s)
    case None =>
    case Some(m) => CollapseLinksNoLink(CollapseOnce(s, m));
  }

  /** A message without a link is returned unchanged. */
  lemma CollapseLinksUnchanged(s: string)
    requires !HasLink(s)
    ensures CollapseLinks(s) == s
  {
    FindLinkComplete(s);
  }

  /** Collapsing twice is collapsing once. */
  lemma CollapseLinksIdempotent(s: string)
    ensures CollapseLinks(CollapseLinks(s)) == CollapseLinks(s)
  {
    CollapseLinksNoLink(s);
    CollapseLinksUnchanged(CollapseLinks(s));
  }

  /** A message with a link becomes strictly shorter. */
  lemma CollapseLinksShortens(s: string)
    requires HasLink(s)
    ensures |CollapseLinks(s)| < |s|
  {
    FindLinkComplete(s);
  }

  /** `Commit #<idx + 1>:\n<preprocessed summary>`. */
  function CommitSection(k: nat, summary: string): string {
    "Commit #" + Decimal(k) + ":\n" + CollapseLinks(summary)
  }

  function CommitSections(commitSummaries: seq<(string, string)>): seq<string> {
    seq(|commitSummaries|, i requires 0 <= i < |commitSummaries| => CommitSection(i + 1, commitSummaries[i].1))
  }

  /** `commitsString`: the sections of all commits, numbered from 1 in list
      order, one line break between two sections. */
  function CommitsString(commitSummaries: seq<(string, string)>): string {
    Join(CommitSections(commitSummaries), "\n")
  }

  /** `File <filename>:\n<summary>`. */
  function FileSection(filename: string, summary: string): string {
    "File " + filename + ":\n" + summary
  }

  function FileSections(fileSummaries: Record<string>): seq<string> {
    seq(|fileSummaries|, i requires 0 <= i < |fileSummaries| => FileSection(fileSummaries[i].0, fileSummaries[i].1))
  }

  /** `filesString`: one section per entry, in record order. */
  function FilesString(fileSummaries: Record<string>): string {
    Join(FileSections(fileSummaries), "\n")
  }

  /** `openAIPrompt` of `summarizePr`. */
  function PrPrompt(cfg: Config, fileSummaries: Record<string>, commitSummaries: seq<(string, string)>): string {
    cfg.prPrompt + "\n\nRESUMO DO COMMIT:\n```\n" + CommitsString(commitSummaries) +
    "\n```\n\nRESUMO DO ARQUIVO:\n```\n" + FilesString(fileSummaries) +
    PrReminder
  }

  /** The fixed text that closes the pull-request prompt. */
  const PrReminder := "\n```\n\n\n  Lembrete - escreva apenas os pontos mais importantes. N\U{E3}o mais do que alguns marcadores.\n  O RESUMO DO PEDIDO DE PULL:\n"

  const TooBigSummary := "Error: couldn't generate summary. PR too big"

  /** `summarizePr`. It never throws: a prompt over the limit gives
      `TooBigSummary` without a request; a failed request, an answer without
      choices (whose `choices[0].text` throws and is caught) and a first
      choice without text give `ErrorSummary`. */
  function SummarizePr(cfg: Config, complete: Completer, fileSummaries: Record<string>,
                       commitSummaries: seq<(string, string)>): (r: string)
    ensures Utf16Length(PrPrompt(cfg, fileSummaries, commitSummaries)) > cfg.maxQueryLength ==> r == TooBigSummary
    ensures var answer := complete(PrPrompt(cfg, fileSummaries, commitSummaries));
      Utf16Length(PrPrompt(cfg, fileSummaries, commitSummaries)) <= cfg.maxQueryLength ==>
        (answer.FirstChoice? && answer.text.Some? ==> r == answer.text.value) &&
        (!(answer.FirstChoice? && answer.text.Some?) ==> r == ErrorSummary)
  {
    PrAnswer(cfg, complete, PrPrompt(cfg, fileSummaries, commitSummaries))
  }

  /** The guard, the request and its fallbacks, for a given prompt. */
  function PrAnswer(cfg: Config, complete: Completer, prompt: string): (r: string)
    ensures Utf16Length(prompt) > cfg.maxQueryLength ==> r == TooBigSummary
    ensures Utf16Length(prompt) <= cfg.maxQueryLength ==>
      (complete(prompt).FirstChoice? && complete(prompt).text.Some? ==> r == complete(prompt).text.value) &&
      (!(complete(prompt).FirstChoice? && complete(prompt).text.Some?) ==> r == ErrorSummary)
  {
    if Utf16Length(prompt) > cfg.maxQueryLength then TooBigSummary
    else
      match complete(prompt)
      case FirstChoice(text) => text.GetOr(ErrorSummary)
      case _ => ErrorSummary
  }

  /** The sections are numbered in list order: appending a commit appends
      its section, numbered one past the others. */
  lemma CommitsStringSnoc(commitSummaries: seq<(string, string)>, c: (string, string))
    ensures commitSummaries == [] ==> CommitsString([c]) == CommitSection(1, c.1)
    ensures commitSummaries != [] ==>
      CommitsString(commitSummaries + [c]) ==
      CommitsString(commitSummaries) + "\n" + CommitSection(|commitSummaries| + 1, c.1)
  {
    var all := commitSummaries + [c];
    assert CommitSections(all) == CommitSections(commitSummaries) + [CommitSection(|all|, c.1)];
    if commitSummaries != [] {
      JoinAppend(CommitSections(commitSummaries), [CommitSection(|all|, c.1)], "\n");
    }
  }

  /** Appending a file entry appends its section. */
  lemma FilesStringSnoc(fileSummaries: Record<string>, f: (string, string))
    ensures fileSummaries == [] ==> FilesString([f]) == FileSection(f.0, f.1)
    ensures fileSummaries != [] ==>
      FilesString(fileSummaries + [f]) == FilesString(fileSummaries) + "\n" + FileSection(f.0, f.1)
  {
    var all := fileSummaries + [f];
    assert FileSections(all) == FileSections(fileSummaries) + [FileSection(f.0, f.1)];
    if fileSummaries != [] {
      JoinAppend(FileSections(fileSummaries), [FileSection(f.0, f.1)], "\n");
    }
  }

  /** The commit shas take no part in the prompt: only the summaries and
      their order do. */
  lemma SummarizePrIgnoresShas(cfg: Config, complete: Completer, fileSummaries: Record<string>,
                               a: seq<(string, string)>, b: seq<(string, string)>)
    requires |a| == |b| && forall i :: 0 <= i < |a| ==> a[i].1 == b[i].1
    ensures SummarizePr(cfg, complete, fileSummaries, a) == SummarizePr(cfg, complete, fileSummaries, b)
  {
    assert CommitSections(a) == CommitSections(b);
  }

  /** Over the limit, the answer does not depend on the completion service:
      no request is made. */
  lemma SummarizePrTooBigNoRequest(cfg: Config, c1: Completer, c2: Completer, fileSummaries: Record<string>,
                                   commitSummaries: seq<(string, string)>)
    requires Utf16Length(PrPrompt(cfg, fileSummaries, commitSummaries)) > cfg.maxQueryLength
    ensures SummarizePr(cfg, c1, fileSummaries, commitSummaries) == SummarizePr(cfg, c2, fileSummaries, commitSummaries)
  {
  }
}
