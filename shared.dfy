/**
 * What the three stages share: the answer of the completion service, the
 * fixed error summary, the settings that live outside the modelled files,
 * and the errors that abort a run.
 */
module Shared {
  import opened Text

  /** One `createCompletion` request: the request fails (throws), or it
      answers with no choices (`choices` undefined or empty), or with a
      first choice whose `text` may be absent. */
  datatype Completion = Failed | NoChoices | FirstChoice(text: Option<string>)

  /** The completion service, as a function from prompt to answer. */
  type Completer = string -> Completion

  const ErrorSummary := "Error: couldn't generate summary"

  /** `MAX_OPEN_AI_QUERY_LENGTH` and the three fixed prompt texts
      (`OPEN_AI_PRIMING` of src/commitSummary.ts, `OPEN_AI_PROMPT` of
      src/filesSummary.ts and of src/summarizePr.ts). Only their lengths
      matter to the logic. */
  datatype Config = Config(
    maxQueryLength: nat,
    commitPriming: string,
    filePrompt: string,
    prPrompt: string)

  /** What a run throws. `QueryTooBig` is `new Error("OpenAI query too big")`,
      `FilesUndefined` is `new Error("Files undefined")`, `NoParent` is the
      `TypeError` of reading `parents[0].sha` on a commit without parents, and
      `CompletionRequestFailed` is a `createCompletion` request that fails. */
  datatype Error = QueryTooBig | CompletionRequestFailed | FilesUndefined | NoParent
}
