# gpt-commit-summarizer, modelled in Dafny

The repository is a GitHub Action. It summarizes a pull request with a
completion service and has three stages, each modelled here.

* **File stage** (`src/filesSummary.ts`, module `FilesSummary`).
  - It builds a record from filename to blob sha and patch, in listing
    order. A filename listed twice keeps its last listing.
  - It goes through the files in record order.
  - A file's summary is reused when some review comment contains
    `GPT summary of <blob sha>:`. The reused summary is that comment
    without its first line.
  - The first file without such a comment is sent to the completion
    service, and the loop stops there. At most one request is made per run.
* **Commit stage** (`src/commitSummary.ts`, module `CommitSummary`). For each
  commit of the pull request, in listing order:
  - The summary is reused from an issue comment that starts with
    `GPT resumo do sha <sha>:`. The reused text stops before the first
    `PR resumo para:` and drops the first line.
  - Otherwise `getCommit` is asked:
    - a commit without a `files` field aborts the run;
    - a commit without parents aborts the run;
    - a merge commit gets a fixed text;
    - any other commit gets a completion for its formatted diff. In that
      completion every `[path]` token of a changed file becomes a Markdown
      link to the file's blob.
  - Each fresh summary is posted as a comment `GPT resumo de <sha>:`,
    except for the head commit.
  - After twenty fresh summaries the loop stops.
  - When the head commit was summarized afresh, one more comment is posted.
    It holds the head's summary, `PR resumo:` and the pull-request summary.
* **Pull-request stage** (`src/summarizePr.ts`, module `SummarizePr`).
  - Every commit summary first goes through `preprocessCommitMessage`.
    It collapses blob links back to `[path]` tokens for as long as the
    regular expression at `src/summarizePr.ts:17` matches.
  - The commit sections (numbered from 1) and the file sections are put
    into one prompt.
  - A prompt over the length limit gives a fixed text with no request.
  - Every failure of the request gives the generic error text.

The supporting modules:

* `Text` models JavaScript's `split`/`join` with a string separator,
  `split(x)[0]`, dropping the first line, the last path segment and
  decimal printing.
* `LinkRegex` is a matcher for the link expression. It is proved to find
  a match exactly when one exists. It returns the leftmost match and takes
  each lazy group as short as the rest of the match allows.
* `JsRecord` models a `Record<string, V>` as an insertion-ordered
  association list with last-write-wins assignment.
* `Shared` holds the completion service, the configuration and the errors.
* `LinkRoundTrip` proves that collapsing undoes linking. A link written
  for a well-formed path collapses back to exactly that path's token.

Everything outside the program is a parameter of the model:

* GitHub: the head sha, the commits, the comment bodies, `getCommit` and
  the diff request.
* The completion service: a function from prompt to answer.

The commit stage's loop is a `method` proved equal to a recursive
specification `Run`. What `Run` does is then stated in lemmas:

* which pairs are returned;
* which comments are posted, and when;
* the error it ends with;
* the bound of twenty comments.

The lookup and the write do not agree. The code looks for
`GPT resumo do sha <sha>:` and cuts at `PR resumo para:`. It writes
`GPT resumo de <sha>:` and `PR resumo:`. The model follows the code
exactly. `CommitSummary.OwnCommentNotFound` proves that the lookup never
accepts a comment the code writes. `CommitSummary.RerunIgnoresOwnComments`
proves the consequence: a second run, which sees the first run's comments
and gets the same answers from the completion service, summarizes and
posts exactly what the first run did. The repository's
description presents these comments as a cache. The code never hits it
with its own comments.

`summarizePr` never throws. Its over-limit branch returns, and its request
is inside `try`/`catch`. So the `"Error summarizing PR"` fallback of
`summarizeCommits` (`src/commitSummary.ts:236-241`) cannot be taken, and
the model calls `SummarizePr.SummarizePr` directly.

The file stage matches a review comment with `includes`, anywhere in the
body, not only at its start. The model follows the code.

## Model

| member | source | states |
|---|---|---|
| Text.Utf16Length | src/summarizePr.ts:46 | JavaScript's `length` counts at least one and at most two code units per character |
| Text.Utf16LengthBmp | src/summarizePr.ts:46 | the length equals the number of characters exactly when every character lies in the Basic Multilingual Plane |
| Text.Utf16LengthConcat | src/summarizePr.ts:41-46 | the length of a concatenation is the sum of the lengths |
| Text.Split | src/commitSummary.ts:51 | `split` with a non-empty separator yields at least one part |
| Text.JoinSplit | src/commitSummary.ts:51-55 | joining the parts of `split(sep)` with `sep` gives back the original string |
| Text.JoinAppend | src/commitSummary.ts:85-87 | joining two non-empty lists puts exactly one separator between their joins |
| Text.ReplaceAllIsSplitJoin | src/commitSummary.ts:72 | the left-to-right replacement of every occurrence equals `split(pat).join(rep)` |
| Text.Join | src/commitSummary.ts:55 | definition of `parts.join(sep)`: the parts with one separator between neighbours; `Text.JoinSplit` and `Text.JoinAppend` state its properties |
| Text.ReplaceAll | src/commitSummary.ts:72 | definition of the left-to-right replacement of every occurrence; `Text.ReplaceAllIsSplitJoin` proves it equals `split(pat).join(rep)` |
| Text.ReplaceAllAbsent | src/commitSummary.ts:72 | a string without the pattern is unchanged by `split(pat).join(rep)` |
| Text.ReplaceAllShrinks | src/summarizePr.ts:22 | a replacement no longer than the pattern never lengthens the string, and a strictly shorter one shortens any string containing the pattern |
| Text.ReplaceAllWhole | src/summarizePr.ts:22 | a string that is exactly the pattern becomes exactly the replacement |
| Text.SplitAtFirst | src/commitSummary.ts:164 | `split` cuts at the first occurrence and continues after it |
| Text.FirstOccurrenceShift | src/commitSummary.ts:164 | a first occurrence after the first character is the first occurrence in the rest of the string, one position earlier |
| Text.SplitAbsent | src/commitSummary.ts:164 | without the separator, `split` gives the one-element list of the string |
| Text.SplitHead | src/commitSummary.ts:164 | the first part of `split` is the prefix before the first separator, or the whole string |
| Text.BeforeFirst | src/commitSummary.ts:164 | `split(sep)[0]` is a prefix of the input, ending right before the first separator, or the whole input when there is none |
| Text.DropFirstLine | src/commitSummary.ts:165-168 | `split("\n").slice(1).join("\n")` is the text after the first line break, or empty when there is none |
| Text.DropFirstLineSpec | src/filesSummary.ts:66 | the same, proved on the `split`/`slice`/`join` composition itself |
| Text.BaseName | src/commitSummary.ts:64-65 | the last `/`-separated part is a slash-free suffix of the path, preceded by a `/` when shorter than the path (so it starts right after the last slash), and the whole path when it has no slash |
| Text.LastSplitPart | src/commitSummary.ts:64-65 | the last element of `split("/")` is a slash-free suffix; when the path has a slash it is shorter than the path and starts right after a slash; otherwise it is the whole path |
| Text.LastPart | src/commitSummary.ts:64-65 | definition of `splitFileName[splitFileName.length - 1]`: the last element of `split("/")` |
| Text.LastPartShift | src/commitSummary.ts:64-65 | cutting the path after its first slash leaves the last `/`-separated part unchanged |
| Text.SuffixAfterSlash | src/commitSummary.ts:64-65 | a slash-free suffix of the rest after a slash is a slash-free suffix of the whole path, still preceded by a slash when shorter |
| Text.Decimal | src/summarizePr.ts:35 | `idx + 1` prints as a non-empty string of decimal digits |
| Text.DecimalRoundTrip | src/summarizePr.ts:35 | the printed number reads back as itself and has no leading zero |
| LinkRegex.CloseFrom | src/summarizePr.ts:17 | the lazy `(.*?)\)` ends at a `)` at or after its start |
| LinkRegex.ShaFrom | src/summarizePr.ts:17 | the lazy prefix before `[a-zA-Z0-f]{40}\/` leaves room for the forty characters, the slash and a `)` |
| LinkRegex.HostFrom | src/summarizePr.ts:17 | the lazy prefix before the host literal is followed by a sha and a closing parenthesis |
| LinkRegex.FirstFrom | src/summarizePr.ts:17 | a match found from a position starts at or after it |
| LinkRegex.FindLink | src/summarizePr.ts:17 | what `match` returns is a match of the expression |
| LinkRegex.CloseFromSound | src/summarizePr.ts:17 | the closing group crosses no line terminator |
| LinkRegex.HostAtLiteral | src/summarizePr.ts:17 | the character-wise host test holds exactly where the host literal occurs |
| LinkRegex.ShaFromSound | src/summarizePr.ts:17 | the sha group is forty class characters and a slash, reached without a line terminator |
| LinkRegex.ShaFromTail | src/summarizePr.ts:17 | the sha group is reached without a line break and is forty class characters and a slash; the closing group after it ends at a `)` on the same line |
| LinkRegex.HostFromSound | src/summarizePr.ts:17 | the host literal is found without crossing a line terminator and is followed by the sha part |
| LinkRegex.FirstFromAt | src/summarizePr.ts:17 | a returned match starts with `[` and is completed by the host search |
| LinkRegex.MatchSound | src/summarizePr.ts:17 | a `[` followed by what the host search finds is a full match of the expression |
| LinkRegex.FindLinkParts | src/summarizePr.ts:20 | a returned match starts inside the string and its three groups are what the host search finds after its `[` |
| LinkRegex.CloseFromComplete | src/summarizePr.ts:17 | any reachable `)` is found, and the first one is taken |
| LinkRegex.CloseFromLeast | src/summarizePr.ts:17 | no `)` is reachable before the one the closing group ends at |
| LinkRegex.ShaFromComplete | src/summarizePr.ts:17 | any reachable sha is found, and the earliest one is taken |
| LinkRegex.ShaFromLeast | src/summarizePr.ts:17 | no sha that a reachable `)` follows comes before the one the sha group takes |
| LinkRegex.HostFromComplete | src/summarizePr.ts:17 | any reachable host literal is found, and the earliest one is taken |
| LinkRegex.HostFromClose | src/summarizePr.ts:17 | the closing group the host search reports is the one found after its sha |
| LinkRegex.FirstFromComplete | src/summarizePr.ts:17 | any match at or after a position is found, and the leftmost one is taken |
| LinkRegex.FindLinkComplete | src/summarizePr.ts:20-23 | `match` returns null exactly when the expression matches nowhere in the string |
| LinkRegex.FindLinkLeftmost | src/summarizePr.ts:20 | the match returned starts no later than any match of the expression |
| LinkRegex.FindLinkLazyHost | src/summarizePr.ts:17 | at the returned start, the first lazy group is the shortest possible |
| LinkRegex.FindLinkLazySha | src/summarizePr.ts:17 | given that, the second lazy group is the shortest possible |
| LinkRegex.FindLinkLazyClose | src/summarizePr.ts:17 | given those, the captured group is the shortest possible |
| LinkRegex.InClass | src/summarizePr.ts:17 | definition of the class `[a-zA-Z0-f]`, whose last range runs from `0` to `f` in code point order |
| LinkRegex.HostAt | src/summarizePr.ts:17 | definition of the host literal `\]\(https:\/\/github\.com\/` occurring at an index; `LinkRegex.HostAtLiteral` relates it to the literal |
| LinkRegex.ShaDirAt | src/summarizePr.ts:17 | definition of `[a-zA-Z0-f]{40}\/` matching at an index |
| LinkRegex.LinkAt | src/summarizePr.ts:17 | definition of a match of the whole expression, each `.*?` group free of line terminators; the matcher is proved sound and complete for it |
| LinkRegex.Whole | src/summarizePr.ts:22 | definition of `match[0]`: the text from the opening `[` through the closing `)` |
| LinkRegex.Capture | src/summarizePr.ts:22 | definition of `match[1]`: the text between the sha's `/` and the closing `)` |
| JsRecord.Get | src/filesSummary.ts:63 | a lookup finds a value exactly when the key is present |
| JsRecord.Keys | src/filesSummary.ts:61 | definition of `Object.keys`: one key per entry, in record order |
| JsRecord.GetAt | src/filesSummary.ts:63 | with distinct keys, looking up an entry's key gives that entry's value |
| JsRecord.Assign | src/filesSummary.ts:57 | assignment appends a new key and keeps an existing key in its place |
| JsRecord.AssignGet | src/filesSummary.ts:57 | after `o[k] = v`, `o[k]` is `v` and every other key reads as before |
| JsRecord.AssignDistinct | src/filesSummary.ts:57 | assignment keeps the keys distinct |
| FilesSummary.BuildFileTable | src/filesSummary.ts:55-58 | the loop produces the record of every changed file's sha and patch, the patch defaulting to empty |
| FilesSummary.FileTableDistinct | src/filesSummary.ts:55-58 | the record has one entry per distinct filename |
| FilesSummary.FileTableHasKey | src/filesSummary.ts:55-58 | a filename is a key exactly when some changed file has it |
| FilesSummary.ListsSnoc | src/filesSummary.ts:55-58 | a filename is listed among the first n+1 files exactly when it is listed among the first n or is the next one |
| FilesSummary.FileTableLastWins | src/filesSummary.ts:56-57 | a filename listed several times keeps the sha and patch of its last listing |
| FilesSummary.FileTable | src/filesSummary.ts:55-58 | definition of the record the loop builds; its properties are the three lemmas above |
| FilesSummary.EntryOf | src/filesSummary.ts:57 | definition of the stored entry: the file's sha and its patch, `""` when the patch is absent |
| FilesSummary.LastListingOfInit | src/filesSummary.ts:56-57 | a last listing before the final file stays the last listing when that file has another name |
| FilesSummary.FirstContaining | src/filesSummary.ts:64-65 | the index found is the first comment containing the marker, and none exists when no comment contains it |
| FilesSummary.CachedSummary | src/filesSummary.ts:63-69 | a summary is reused exactly when some comment contains `GPT summary of <sha>:`, and it is the first such comment without its first line |
| FilesSummary.FileSummary | src/filesSummary.ts:17-36 | a prompt over the limit throws without a request; within it, a failed request throws, a first choice with text gives that text, and an answer without choices or without text gives the fixed error text |
| FilesSummary.FirstUncached | src/filesSummary.ts:60-74 | the stopping index is the first file without a reusable summary, and every file before it has one |
| FilesSummary.FindReviewSummary | src/filesSummary.ts:62-71 | the inner loop over the review comments returns the reused summary |
| FilesSummary.FileMarker | src/filesSummary.ts:63 | definition of the marker `GPT summary of <sha>:` |
| FilesSummary.FilePrompt | src/filesSummary.ts:18 | definition of the file prompt around the file name and its patch |
| FilesSummary.ReusedSnoc | src/filesSummary.ts:67-73 | a reused file adds exactly its entry at the end of the result |
| FilesSummary.ReusedFresh | src/filesSummary.ts:67 | the file being considered is not yet a key of the result, so assignment appends it |
| FilesSummary.GetFilesSummaries | src/filesSummary.ts:48-82 | the method, walking `Object.keys` of the table and reading each entry by key, returns the reused summaries up to the first uncached file, then that file's fresh summary, or the error it throws |
| FilesSummary.FilesSummariesShape | src/filesSummary.ts:60-81 | the result follows record order with each file at most once; every entry but the last is a reused summary; the result stops short only at an uncached file |
| FilesSummary.FilesSummariesOneRequest | src/filesSummary.ts:75-79 | the result depends on the completion service only through the prompt of the first uncached file, and not at all when every file is cached |
| FilesSummary.FilesSummaries | src/filesSummary.ts:60-81 | definition of the result: reused entries up to the first uncached file, then its fresh summary or error; specified by the method and the two lemmas above |
| SummarizePr.CollapseOnce | src/summarizePr.ts:22 | one step is `split(match[0]).join("[" + match[1] + "]")` and strictly shortens the message |
| SummarizePr.CollapseLinks | src/summarizePr.ts:19-26 | collapsing never lengthens the message |
| SummarizePr.PreprocessCommitMessage | src/summarizePr.ts:19-26 | the loop terminates with the collapsed message, in which the expression matches nowhere |
| SummarizePr.CollapseLinksNoLink | src/summarizePr.ts:21-25 | no link is left after collapsing |
| SummarizePr.CollapseLinksUnchanged | src/summarizePr.ts:20-21 | a message without a link is returned unchanged |
| SummarizePr.CollapseLinksIdempotent | src/summarizePr.ts:19-26 | preprocessing twice is preprocessing once |
| SummarizePr.CollapseLinksShortens | src/summarizePr.ts:21-24 | a message with a link becomes strictly shorter |
| SummarizePr.SummarizePr | src/summarizePr.ts:28-62 | over the limit it returns the too-big text; within it, a first choice with text gives that text, and a failed request or an answer without choices or without text gives the fixed error text; it never throws |
| SummarizePr.PrAnswer | src/summarizePr.ts:46-61 | for a given prompt: over the limit the too-big text; within it, the first choice's text when it has one, and the fixed error text otherwise |
| SummarizePr.CommitsStringSnoc | src/summarizePr.ts:32-37 | commit sections are numbered from 1 in list order and separated by one line break |
| SummarizePr.FilesStringSnoc | src/summarizePr.ts:38-40 | file sections follow record order and are separated by one line break |
| SummarizePr.CommitsString | src/summarizePr.ts:32-37 | definition of the commit sections joined by line breaks; `SummarizePr.CommitsStringSnoc` states its shape |
| SummarizePr.CommitSection | src/summarizePr.ts:35 | definition of `Commit #<k>:`, a line break and the collapsed summary |
| SummarizePr.CommitSections | src/summarizePr.ts:32-36 | definition of one section per pair, numbered from 1 in list order, ignoring the sha |
| SummarizePr.FilesString | src/summarizePr.ts:38-40 | definition of the file sections joined by line breaks; `SummarizePr.FilesStringSnoc` states its shape |
| SummarizePr.FileSection | src/summarizePr.ts:39 | definition of `File <name>:`, a line break and the summary |
| SummarizePr.FileSections | src/summarizePr.ts:38-39 | definition of one section per record entry, in record order |
| SummarizePr.PrPrompt | src/summarizePr.ts:41-43 | definition of the pull-request prompt around the two section lists |
| SummarizePr.SummarizePrIgnoresShas | src/summarizePr.ts:34 | the commit shas take no part in the prompt; only the summaries and their order do |
| SummarizePr.SummarizePrTooBigNoRequest | src/summarizePr.ts:46-48 | over the limit, the result does not depend on the completion service |
| CommitSummary.FormatGitDiff | src/commitSummary.ts:47-56 | the loop gives two header lines, the patch unchanged and a final line break |
| CommitSummary.FileDiff | src/commitSummary.ts:47-56 | definition of the diff text of one file, which the method computes |
| CommitSummary.RawGitDiff | src/commitSummary.ts:85-87 | definition of the file diffs joined by line breaks, or nothing when a file has no patch (where `formatGitDiff` throws) |
| CommitSummary.FileNames | src/commitSummary.ts:111 | definition of the file names in list order |
| CommitSummary.PostprocessSummary | src/commitSummary.ts:58-75 | the loop replaces each listed file's token by its blob link, file after file |
| CommitSummary.LinkifyNoTokens | src/commitSummary.ts:63-74 | a summary with no listed file's token comes back unchanged |
| CommitSummary.Token | src/commitSummary.ts:72 | definition of the token `[path]` that a summary refers to a file by |
| CommitSummary.BlobUrl | src/commitSummary.ts:66-71 | definition of the blob address; `LinkRoundTrip.UrlLayout` states where its parts sit |
| CommitSummary.LinkText | src/commitSummary.ts:72 | definition of the link a token becomes; `LinkRoundTrip.LinkShape` states its shape |
| CommitSummary.Linkify | src/commitSummary.ts:63-73 | definition of the summary with each listed file's token replaced by its link, in list order; the method and `CommitSummary.LinkifyNoTokens` are stated against it |
| CommitSummary.CommitPrompt | src/commitSummary.ts:89 | definition of the commit prompt around the diff text |
| CommitSummary.CommitCompletion | src/commitSummary.ts:77-120 | a missing diff or a missing patch leaves the incoming text; with every patch present, an over-limit prompt or an answer without choices (or a failed request) leaves it too, and an answer with a first choice gives that choice's text (or the error text when it has none) with every listed file's token linked |
| CommitSummary.GetOpenAICompletion | src/commitSummary.ts:77-120 | the method, with its loop over the diff's files, computes that completion |
| CommitSummary.FirstStartingWith | src/commitSummary.ts:155-159 | the index found is the first comment starting with the marker, and none exists when no comment does |
| CommitSummary.LookupMarker | src/commitSummary.ts:155 | definition of the lookup marker `GPT resumo do sha <sha>:` |
| CommitSummary.FindCommitComment | src/commitSummary.ts:155-159 | definition of the lookup: the first comment starting with the marker |
| CommitSummary.CachedCommitSummary | src/commitSummary.ts:163-168 | the reused text is the body before the first `PR resumo para:` without its first line |
| CommitSummary.FreshSummary | src/commitSummary.ts:178-208 | a commit without files or without parents aborts the run, and nothing else does |
| CommitSummary.SummaryOf | src/commitSummary.ts:155-210 | definition of a commit's outcome in the loop: the summary from its comment when one is found, its fresh summary otherwise |
| CommitSummary.SummarizeFreshCommit | src/commitSummary.ts:173-208 | the loop body for a commit without a comment computes that summary |
| CommitSummary.RunCached | src/commitSummary.ts:162-171 | a reused commit appends its pair and moves to the next commit |
| CommitSummary.RunFailed | src/commitSummary.ts:173-186 | a throwing commit ends the loop with the head flag already updated |
| CommitSummary.RunFresh | src/commitSummary.ts:210-230 | a fresh commit appends its pair, posts its comment unless it is the head, and counts; the loop stops at twenty |
| CommitSummary.Run | src/commitSummary.ts:153-231 | definition of the loop over the commits as a recursive function; the method is proved equal to it and the lemmas below state its course |
| CommitSummary.SummarizeCommitsSpec | src/commitSummary.ts:122-252 | definition of the whole operation: the loop, then the head lookup and the pull-request comment |
| CommitSummary.Finish | src/commitSummary.ts:232-251 | definition of the end of the run: the error rethrown, or the pull-request comment posted when the head needs one and has a pair |
| CommitSummary.FindPair | src/commitSummary.ts:232-234 | the summary of the first pair with the head's sha, and none exactly when no pair has it |
| CommitSummary.FirstPairShift | src/commitSummary.ts:232-234 | the first pair with the sha in the tail of a list whose head has another sha is the first in the whole list |
| CommitSummary.SummarizeCommits | src/commitSummary.ts:122-252 | the method posts the comments and returns or throws as the recursive specification says |
| CommitSummary.StepCached | src/commitSummary.ts:162-171 | a reused commit keeps the loop's variables consistent with the commits seen |
| CommitSummary.StepFresh | src/commitSummary.ts:173-230 | a fresh commit keeps them consistent |
| CommitSummary.PairsSnoc | src/commitSummary.ts:169 | one more commit that does not throw adds exactly its sha and summary at the end of the pairs |
| CommitSummary.RunSpec | src/commitSummary.ts:153-231 | from consistent variables the loop ends properly: at most twenty fresh commits; before the end only once twenty commits were fresh, and the twentieth fresh commit is always the last one recorded; a throw only at the commit after those recorded |
| CommitSummary.RunSpecCached | src/commitSummary.ts:162-171 | the same end, pinned in the same way, for a commit with a comment |
| CommitSummary.RunSpecFresh | src/commitSummary.ts:198-230 | the same end, pinned in the same way, for a commit summarized afresh, which ends the loop when it is the twentieth |
| CommitSummary.HeadFreshIndex | src/commitSummary.ts:173-175 | when the head flag is set, the head is one of the commits seen |
| CommitSummary.SummarizeCommitsCorrect | src/commitSummary.ts:122-252 | the pairs are the commits reached with their summaries, the loop stops early only once twenty commits were fresh, and the twentieth fresh commit is always the last pair; one comment per fresh non-head commit, in order; the pull-request comment exactly when the head was fresh; a throw only at a throwing commit, after the earlier comments |
| CommitSummary.FinishCorrect | src/commitSummary.ts:232-251 | after a loop that ended properly, the result and the comments are those `SummarizeCommitsCorrect` states, for any pull-request summary |
| CommitSummary.StopAfterFresh | src/commitSummary.ts:225-230 | stopping right after the twentieth fresh summary, at a commit without a comment, leaves the variables consistent with the commits reached |
| CommitSummary.ExpectedPostsBound | src/commitSummary.ts:213-230 | the comments due, plus the pull-request comment, never outnumber the fresh commits |
| CommitSummary.AtMostTwentyComments | src/commitSummary.ts:224-250 | a run posts at most twenty comments |
| CommitSummary.OwnCommentNotFound | src/commitSummary.ts:155-157 | no body beginning `GPT resumo de ` starts with the lookup marker |
| CommitSummary.OwnBodies | src/commitSummary.ts:213 | the commit comment and the head comment both begin `GPT resumo de ` |
| CommitSummary.CommitComment | src/commitSummary.ts:213 | definition of the comment `GPT resumo de <sha>:` followed by the summary |
| CommitSummary.HeadComment | src/commitSummary.ts:242 | definition of the head comment with the head's summary, `PR resumo:` and the pull-request summary |
| CommitSummary.FirstStartingWithAppend | src/commitSummary.ts:157-159 | appended comments that do not start with the marker do not change which comment is found |
| CommitSummary.RunPostsOwn | src/commitSummary.ts:213-223 | the loop posts only comments of its own kind |
| CommitSummary.RunIgnoresOwn | src/commitSummary.ts:153-231 | adding comments of its own kind leaves the loop's course unchanged |
| CommitSummary.RerunIgnoresOwnComments | src/commitSummary.ts:155-159 | a rerun that sees the first run's comments, given the same answers from the completion service, does exactly what the first run did |
| CommitSummary.MergeBypass | src/commitSummary.ts:188-208 | a commit with two or more parents gets the merge text, whatever the diff and the completion service |
| CommitSummary.AllCachedNothingDue | src/commitSummary.ts:162-175 | when every commit has a comment, no commit is fresh and the head flag stays down |
| CommitSummary.AllCachedSummarized | src/commitSummary.ts:162-171 | when every commit has a comment, none throws |
| CommitSummary.AllCachedPostsNothing | src/commitSummary.ts:153-251 | when every commit has a comment, nothing is posted and each commit is returned with the summary from its comment |
| LinkRoundTrip.ShortPathNoShaRun | src/commitSummary.ts:67-69 | an owner and a name shorter than forty leave no false sha in the repository path |
| LinkRoundTrip.HostSplit | src/summarizePr.ts:17 | the host literal is `](` followed by the start of every blob address |
| LinkRoundTrip.UrlLayout | src/commitSummary.ts:66-71 | where the owner, the name, the sha and the path sit in a blob address |
| LinkRoundTrip.HostInLink | src/commitSummary.ts:72 | the host literal follows the base name in a link |
| LinkRoundTrip.LinkHost | src/commitSummary.ts:72 | the host test holds right after the base name of a link |
| LinkRoundTrip.LinkShape | src/commitSummary.ts:72 | a link is `[`, the base name, `](`, the address and `)` |
| LinkRoundTrip.LayoutPath | src/commitSummary.ts:68-69 | the repository path sits between the host and the sha |
| LinkRoundTrip.LayoutSha | src/commitSummary.ts:70 | the sha and the slash after it |
| LinkRoundTrip.LayoutFile | src/commitSummary.ts:71 | the full path sits between the slash after the sha and the closing parenthesis |
| LinkRoundTrip.NoEarlySha | src/summarizePr.ts:17 | nothing between the host and the sha passes for forty class characters and a slash |
| LinkRoundTrip.NoHostInBaseName | src/summarizePr.ts:17 | no host literal starts inside the base name of a link, whatever the base name holds (a `]` included) |
| LinkRoundTrip.LinkAtWhole | src/summarizePr.ts:17 | the whole link is a match of the expression |
| LinkRoundTrip.MatchHost | src/summarizePr.ts:20 | the match found starts at the link, at the host literal after the base name |
| LinkRoundTrip.MatchSha | src/summarizePr.ts:20 | its sha is the link's sha |
| LinkRoundTrip.MatchClose | src/summarizePr.ts:20 | its closing parenthesis ends the link |
| LinkRoundTrip.LinkMatch | src/summarizePr.ts:17-20 | the expression matches the whole link, capturing the full path |
| LinkRoundTrip.TokenHasNoLink | src/summarizePr.ts:17 | a `[path]` token of a path without `)` holds no match |
| LinkRoundTrip.CollapseLinkText | src/summarizePr.ts:19-26 | collapsing a file's link gives back the file's token |
| LinkRoundTrip.PostprocessThenPreprocess | src/summarizePr.ts:19-26 | a summary made of one file's token, linked as the commit stage does and then preprocessed, is that token again |

## Left out

- The GitHub calls are not modelled. Listing the pull request, its files, commits, comments and review comments, and `getCommit`, become inputs. A failure of any of them, and of `compareCommits`, which the code awaits before the merge check, is not modelled.
- Creating a comment is modelled as appending to `posted`. The order is kept. Network failures are not modelled.
- Asynchrony, logging and pagination are left out.
- The model name, token limit and temperature of the completion request are left out. They only shape the answer, which is an input here.
- The prompt texts and `MAX_OPEN_AI_QUERY_LENGTH` are parameters (`Shared.Config`). Their values come from other files: `src/sharedPrompt.ts` holds the file prompt prefix, and `src/openAi.ts` is not part of this model.
- String lengths are JavaScript's: `Text.Utf16Length` counts two code units for a character outside the Basic Multilingual Plane. A Dafny `char` is a Unicode scalar value, so a string holding a lone surrogate, which JavaScript allows, cannot be represented.
- JavaScript's ordering of integer-like keys (`"1"`, `"2"`) ahead of other keys in a `Record` is not modelled. Keys keep insertion order.
- A comment or review comment without a body is read as `""`. Their other fields are not modelled.
- The lookup builds a regular expression from the sha. A sha holds no character the expression treats specially, so the lookup is modelled as a prefix test.
- The `"Error summarizing PR"` fallback of `summarizeCommits` is not modelled, because `summarizePr` never throws.
- The entry point that runs the three stages and posts the pull-request description is outside this model.
- LinkRoundTrip.PostprocessThenPreprocess: the round trip is proved only for a summary made of one token, under `WellFormedLink`. A summary with other text around the link, or several files, is not covered. `WellFormedLink` asks for a path without `)` or line terminators, an owner and a name without line terminators and no run of forty class characters and a slash, and a sha of forty class characters: outside these the expression matches a different part of the link, so the round trip does not hold as stated. A `]` in the path is allowed.
