# Resume analysis endpoint: a Dafny model

This project models the server side of a resume/job-description analyser:
the `POST /api/analyze` handler in `src/app/api/analyze/route.ts`. The
handler reads a multipart form with a PDF `resume` and a `jd_text` field,
extracts the PDF's text, embeds both texts in a prompt, sends it to a hosted
language model, strips Markdown code fences from the reply, parses it as
JSON and returns the parsed value. Any thrown error becomes an
`{ error }` response. The PDF library, the model, the form reader and
`JSON.parse` are foreign code, so they are parameters of the model.

Modules, one per part of the handler:

- `Wrappers`: `Option` and `Result`.
- `PdfText`: the page loop of `extractTextFromPDF`. The imperative
  accumulation is the method `ExtractTextFromPdf`. It is proved equal to the
  left fold `ExtractedText`. The lemmas state what the text contains, and that
  `SplitOn` inverts the joining.
- `ReplyCleaning`: `replace(/```json|```/g, "")` as `StripFences`
  (leftmost, non-overlapping, trying "```json" before "```" at each
  position). It also holds ECMAScript `trim` (the full WhiteSpace and
  LineTerminator set) and their composition `Clean`.
- `Prompt`: the prompt template, character for character.
- `ErrorMapping`: the catch block's status and message selection.
- `AnalysisTypes`: a JSON value type, and the `AnalysisResponse` shape with
  its three verdict literals from `src/types/index.ts`.
- `AnalyzeRoute`: the handler `Handle`, a function of the form outcome and
  of the four foreign capabilities. It returns the response and the list of
  external calls it made, so that "nothing downstream runs" and "steps run
  in order" can be stated.

The model follows the code where it behaves differently from what a reader
of the handler might expect:

- A page is followed by a line feed, the last page included. Pages are not
  joined by line feeds.
- Fences are removed anywhere in the reply, not only at its ends.
- Validation also rejects an empty `jd_text` and an empty text value under
  `resume`. A non-empty text value under `resume` passes the check and then
  fails with a `TypeError` (status 500). A file under `jd_text` enters the
  prompt as `[object File]`.
- One would expect a fence-wrapped reply to clean like the unwrapped one. `CleanJsonFenced` proves this for "```json" fences. `CleanBareFenced`
  proves it for bare "```" fences when the content does not start with
  `json`. `CleanBareFencedJson` and `CleanBareFencedCounterexample` show that this exception is real.
  Valid JSON never starts with the letters `json`, so a parseable reply is
  not affected.
- Cleaning is idempotent. The replace can never leave three backticks in a
  row: a backtick kept just before a removed fence would itself have started
  a match (`StripFencesLeavesNoFence`, `CleanIdempotent`).
- The status of a caught error is forwarded whenever it is truthy, whatever
  its value. That includes 2xx values and values that are not HTTP statuses.

## Model

| member | source | states |
|---|---|---|
| PdfText.ExtractTextFromPdf | src/app/api/analyze/route.ts:20-30 | the accumulator loop over the pages yields the in-order concatenation of each page's space-joined items followed by a line feed |
| PdfText.ExtractedNewlines | src/app/api/analyze/route.ts:22-28 | the text holds exactly one line feed per page beyond those inside the items |
| PdfText.ExtractedEnding | src/app/api/analyze/route.ts:20-28 | zero pages give the empty string; otherwise the text ends with a line feed |
| PdfText.ExtractedAppend | src/app/api/analyze/route.ts:22-28 | the text of a page list split anywhere is the concatenation of the texts of the two parts |
| PdfText.ExtractedCons | src/app/api/analyze/route.ts:22-28 | the first page's text and its line feed come first, then the text of the remaining pages |
| PdfText.JoinCount | src/app/api/analyze/route.ts:25-27 | joining items adds the separator's characters once per gap between items and nothing else |
| PdfText.SplitJoin | src/app/api/analyze/route.ts:25-27 | splitting a joined page on a one-character separator that no item contains gives back the items |
| PdfText.SplitExtractedText | src/app/api/analyze/route.ts:20-30 | when no item holds a line feed, splitting the text on line feeds gives every page's text in order plus one trailing empty string |
| ReplyCleaning.TrimStart | src/app/api/analyze/route.ts:68 | the result is the suffix left after all leading ECMAScript white space, and it starts with a non-space |
| ReplyCleaning.TrimEnd | src/app/api/analyze/route.ts:68 | the result is the prefix left before all trailing ECMAScript white space, and it ends with a non-space |
| ReplyCleaning.TrimPiece | src/app/api/analyze/route.ts:68 | trim keeps one contiguous piece of the input, starting where the leading white space ends |
| ReplyCleaning.TrimOutside | src/app/api/analyze/route.ts:68 | everything before and after the kept piece is ECMAScript white space |
| ReplyCleaning.TrimEnds | src/app/api/analyze/route.ts:68 | the trimmed string neither starts nor ends with white space |
| ReplyCleaning.TrimUnchanged | src/app/api/analyze/route.ts:68 | a string without surrounding white space is left unchanged by trim |
| ReplyCleaning.TrimIdempotent | src/app/api/analyze/route.ts:68 | trimming twice equals trimming once |
| ReplyCleaning.StripFencesIsSubsequence | src/app/api/analyze/route.ts:68 | the replace only deletes characters; what it keeps stays in its relative order |
| ReplyCleaning.StripFencesKeepsOtherChars | src/app/api/analyze/route.ts:68 | every character other than a backtick or a letter of "json" survives the replace, in order |
| ReplyCleaning.StripFencesLeavesNoFence | src/app/api/analyze/route.ts:68 | the replace's output never contains three backticks in a row |
| ReplyCleaning.StripFencesUnchanged | src/app/api/analyze/route.ts:68 | input without three backticks in a row passes the replace unchanged |
| ReplyCleaning.StripTrailingFence | src/app/api/analyze/route.ts:68 | appending a closing "```" to any text does not change the replace's output |
| ReplyCleaning.CleanShape | src/app/api/analyze/route.ts:68 | the cleaned reply has no leading or trailing white space and no "```" anywhere |
| ReplyCleaning.CleanIdempotent | src/app/api/analyze/route.ts:68 | cleaning a cleaned reply changes nothing |
| ReplyCleaning.CleanWithoutFence | src/app/api/analyze/route.ts:68 | a reply without three backticks in a row, in particular one without any backtick, is only trimmed |
| ReplyCleaning.CleanJsonFenced | src/app/api/analyze/route.ts:68 | a reply wrapped as "```json" ... "```" cleans exactly like its content |
| ReplyCleaning.CleanBareFenced | src/app/api/analyze/route.ts:68 | a reply wrapped in bare "```" fences cleans like its content when the content does not start with "json" |
| ReplyCleaning.CleanBareFencedJson | src/app/api/analyze/route.ts:68 | content starting with "json" wrapped in bare fences cleans like the content without those four letters |
| ReplyCleaning.CleanBareFencedCounterexample | src/app/api/analyze/route.ts:68 | a trimmed, fence-free text after "json" (such as "json1") cleans to itself, yet wrapped in bare fences it loses the "json" |
| Prompt.PromptEmbedsInputs | src/app/api/analyze/route.ts:51-64 | the prompt is the fixed template with the job description and the resume text embedded verbatim at fixed offsets |
| Prompt.PromptInjective | src/app/api/analyze/route.ts:51-64 | for job descriptions of equal length, equal prompts come from equal inputs and conversely |
| ErrorMapping.ErrorStatusSpec | src/app/api/analyze/route.ts:76 | a truthy error status is forwarded unchanged, the status is never 0, and 500 comes out exactly when there is no truthy status or it is 500 |
| ErrorMapping.ErrorTextRecoversMessage | src/app/api/analyze/route.ts:75 | the error text is "AI Analysis failed: " followed by the message when non-empty, else "Unknown error" |
| ErrorMapping.ErrorTextInjective | src/app/api/analyze/route.ts:75 | two errors give the same text exactly when they show the same message |
| AnalysisTypes.VerdictRoundTrip | src/types/index.ts:5 | a string parses as a verdict exactly when it is that verdict's literal |
| AnalyzeRoute.FormGet | src/app/api/analyze/route.ts:36-37 | a form value is found exactly when some entry has that name, and it is the value of the first such entry |
| AnalyzeRoute.ValidationRejects | src/app/api/analyze/route.ts:39-41 | the 400 "Missing resume or JD" response comes out exactly when a field is missing or an empty string; then no call is made and the result does not depend on the extractor, the model or the parser |
| AnalyzeRoute.UnreadableForm | src/app/api/analyze/route.ts:34-35 | a form that cannot be read is reported through the catch block with no further call |
| AnalyzeRoute.ResumeNotAFile | src/app/api/analyze/route.ts:36-43 | a non-empty text value under `resume` passes validation and then fails with status 500 and a TypeError message, before any call |
| AnalyzeRoute.ExtractionFailure | src/app/api/analyze/route.ts:43-45 | a failing extraction is reported through the catch block and the model is not called |
| AnalyzeRoute.ProviderFailure | src/app/api/analyze/route.ts:49-66 | the model is called once on the prompt built from the job description and the extracted text; its error keeps its truthy status, else 500 |
| AnalyzeRoute.ParseFailure | src/app/api/analyze/route.ts:67-70 | a cleaned reply the parser rejects gives status 500 and the parse error's message |
| AnalyzeRoute.SuccessForwardsParsedValue | src/app/api/analyze/route.ts:66-70 | on success the response is 200 with exactly the parser's value for the cleaned reply, after exactly the three calls in order |
| AnalyzeRoute.JsonBodyOnlyAfterAllSteps | src/app/api/analyze/route.ts:33-79 | for every input, a JSON body appears only after extraction, the model call and the parse of the cleaned reply all succeeded, and it is the parser's value |
| AnalyzeRoute.UncheckedReplyForwarded | src/app/api/analyze/route.ts:68-70 | a parsed value with a score of 150 and an unlisted verdict fails the response shape and is still returned with status 200 |

## Left out

- The PDF library (`getDocument`, `getPage`, `getTextContent`) is a parameter returning pages of item strings or an error. Its parsing, and text items without a `str`, are not modelled.
- The language-model client, its API key from the environment and the model name are a parameter from prompt to reply or error. Nondeterminism across requests is not modelled: within one request the model is called once.
- `JSON.parse` is a parameter returning a value or the message of its syntax error. The JSON grammar is not modelled.
- `NextResponse.json` serialisation is out of scope. So is the runtime's rejection of a status outside 200-599, which would turn a forwarded error status such as 42 into an unhandled error.
- Error objects are reduced to their `status` (an integer or undefined) and `message` (a string or undefined). Non-numeric statuses, NaN and thrown non-objects are not modelled.
- The `TypeError` text for a text value under `resume` is the V8 wording. Other engines word it differently.
- Logging (`console.error`), the module-level worker import, the React page, the static constants and the framework configuration are not modelled.
- `PdfText.ExtractTextFromPdf` is the imperative loop. `AnalyzeRoute.Handle` is a function, so it uses the loop's specification `ExtractedText`, which the method is proved to compute.
