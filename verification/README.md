# ResumeLens core, modelled in Dafny

ResumeLens lets a signed-in user upload a PDF résumé, marks it processed with
a score, matches it against a job description or rewrites it through the
Gemini model, and lists a user's résumés on a history page. This project
models the part of that application that is plain logic, with the external
services replaced by inputs:

- **Reply cleanup** (`lib/gemini.ts`, `app/api/job-match/route.ts`): the
  removal of ```` ```json ```` and ```` ``` ```` markers, written as an exact
  left-to-right `replace(/…/g)` scan (`Gemini.ReplaceAll`), then `trim` over
  JavaScript's own whitespace set (`Text.Trim`, `Text.IsWhitespace`).
- **JSON span extraction** (`lib/prisma.ts`): `extractJson`, the span matched
  by `/\{[\s\S]*\}/`, characterised as the leftmost-longest `{…}` pair.
- **The résumé table and route handlers**: the `userResume` table is a
  sequence of `Store.Resume` records. Each route handler is a pure function
  from whichever of these inputs it uses to an `Http.Reply(status, body,
  table')`: the caller (`Option<UserId>`), the request body (`None` when
  `req.json()` throws), the model's reply (`AiReply`: an answer or a thrown
  error), the random score draw (`ProcessRoute.ScoreDraw`) and the table.
  The route modules are `ProcessRoute`, `JobMatchApiRoute` (no sign-in,
  lookup by id only, result merged into `aiAnalysis.jobMatch`),
  `JobMatchRoute` (sign-in, owner-scoped lookup, result in top-level
  `jobMatch`), `RewriteRoute`, `ResumesRoute` and `AnalyzeRoute`. The two
  job-match routes disagree, and both are modelled as written, except that
  they call a model function the code does not define (see "## Findings").
  The UploadThing callbacks (`UploadRoute`) are not HTTP routes. The
  middleware maps the caller to the user id or an `UploadError`. The upload
  as a whole takes the caller, the uploaded file, the generated id, the
  timestamp and the table, and returns the new table or an `UploadError`.
- **Lifecycle** (`Lifecycle`): every request is one step on the table. Every
  step keeps ids unique and keeps each record either `"Processing"` with no
  score or `"Completed"` with one.
- **History filter** (`app/history/page.tsx`): the search-and-status filter
  as an order-preserving sequence filter.

`JSON.parse` is a parameter `parse: string -> Option<Json>`. JSON objects are
maps: member order carries no meaning in a JSON object (section 4 of RFC
8259), so the model does not track it. Object spread
(`JsonValues.SpreadEntries`) copies an object's fields. It copies an array's
or a string's elements under index keys, and nothing from `null`, booleans or
numbers.

Some behaviour of the code is worth stating outright, because the model
follows it exactly:

- The open job-match route (`app/api/job-match/route.ts`) checks no owner at
  all. It answers 400 for a missing input and 404 for an absent or textless
  record.
- The signed-in job-match route (`app/job-match/route.ts`) scopes the lookup
  by owner. It answers 401 when signed out and 400 when the caller has no
  such record with text, so someone else's record looks absent.
- Processing is a mock: it writes fixed text and a score of 65–90. It does not
  extract text or call the model.
- Extraction takes the first `{` to the last `}`, not a balanced object.
- Both job-match routes import `matchJobDescription`, which `lib/gemini.ts`
  does not export; see "## Findings".

## Model

| member | source | states |
|---|---|---|
| Text.Trim | lib/gemini.ts:40 | the result has no whitespace at either end, and it is the infix of the input left after cutting whitespace-only text from both ends |
| Text.Lower | app/history/page.tsx:44 | `toLowerCase` keeps the length, lowers each ASCII capital and leaves every other character alone |
| JsonValues.DecimalStringInjective | app/api/job-match/route.ts:49 | distinct array indices are spelled as distinct keys, so spreading an array loses no element |
| JsonValues.SpreadEntries | app/api/job-match/route.ts:49 | `...v` copies an object's fields as they are, an array's or a string's elements under their decimal index keys and no other key, and nothing from `null`, booleans or numbers |
| Gemini.ReplaceAll | lib/gemini.ts:38-39 | the global replace never lengthens the text and is the identity when the pattern does not occur |
| Gemini.NoFenceSurvives | lib/gemini.ts:39 | after deleting the ``` markers, no ``` remains, even where a deletion splices backticks together |
| Gemini.Clean | lib/gemini.ts:37-40 | the cleaned reply contains no ``` and has no leading or trailing whitespace |
| Gemini.CleanIdempotent | lib/gemini.ts:37-40 | cleaning an already cleaned reply returns it unchanged |
| Gemini.CleanWithoutBackticks | lib/gemini.ts:37-40 | a reply without any backtick is only trimmed |
| Gemini.CleanFencedBody | lib/gemini.ts:37-40 | a trimmed, backtick-free body wrapped as ```` ```json\n…\n``` ```` comes back exactly, for both pattern variants |
| Gemini.CleanReply | lib/gemini.ts:37-40 | the text `analyzeResume` hands to `JSON.parse`, with the `\n?` patterns, contains no ``` and is trimmed |
| Gemini.AnalyzeResume | lib/gemini.ts:30-46 | the result is the parse of the cleaned reply exactly when the model answered and the parse succeeded; a model failure or a parse failure is returned as that error and never as a default value |
| ExtractJson.JsonSpan | lib/prisma.ts:6-7 | there is no match exactly when no `}` follows any `{`; a match is the contiguous span of the leftmost-longest `{`…`}` pair |
| ExtractJson.Extract | lib/prisma.ts:5-9 | fails with "No JSON found in Gemini response" exactly when there is no `{`…`}` pair; otherwise only the matched span is parsed |
| ExtractJson.AnalyzeResume | lib/prisma.ts:35-38 | a model failure propagates, and otherwise the outcome is that of `extractJson` on the reply |
| ExtractJson.NoOpenBraceFails | lib/prisma.ts:6-7 | a text without `{` fails with the "No JSON found" error |
| ExtractJson.NoCloseAfterFirstOpenFails | lib/prisma.ts:6-7 | a text with no `}` after its first `{` fails with the "No JSON found" error |
| ExtractJson.SpanBetween | lib/prisma.ts:6 | the span starts at the first `{` of the text and ends at its last `}` |
| ExtractJson.WholeObjectKept | lib/prisma.ts:6-8 | a text that starts with `{` and ends with `}` is passed through whole |
| ExtractJson.SurroundingProseDropped | lib/prisma.ts:6-8 | brace-free prose around an object-shaped body is discarded, and exactly the body is kept |
| Store.FindUnique | app/api/job-match/route.ts:16-18 | the lookup by id finds a record with that id exactly when one exists |
| Store.FindOwned | app/job-match/route.ts:15-20 | the lookup by id and owner finds nothing exactly when no record has both, so someone else's record counts as absent |
| Store.UpdateWhere | app/api/process-resume/route.ts:19-26 | an update by id changes the records with that id and leaves every other record as it was |
| Store.SortNewestFirst | app/api/resumes/route.ts:15 | the ordering returns the same records, in descending `uploadedAt` order |
| Store.FindManyByOwner | app/api/resumes/route.ts:13-16 | the query returns only the owner's records, all of them, each as often as stored, newest first |
| UploadRoute.Middleware | app/api/uploadthing/core.ts:9-17 | the upload proceeds exactly when a user is signed in, and is rejected with "Unauthorized" otherwise |
| UploadRoute.OnUploadComplete | app/api/uploadthing/core.ts:18-30 | exactly one record is appended and existing records are untouched; it belongs to the uploader, names the file, is "Processing", has no score, text or analysis; a taken id fails instead |
| UploadRoute.Upload | app/api/uploadthing/core.ts:9-30 | an anonymous upload is rejected and creates nothing; otherwise the completion step runs for the signed-in user |
| UploadRoute.UploadKeepsValid | app/api/uploadthing/core.ts:19-27 | an upload keeps ids unique and the lifecycle invariant of every record |
| ProcessRoute.Score | app/api/process-resume/route.ts:17 | the mock score lies in 65..90 |
| ProcessRoute.Post | app/api/process-resume/route.ts:4-35 | 500 with nothing written exactly when the body, its id or the record is missing; otherwise that record becomes "Completed" with the placeholder text and a 65..90 score, and nothing else in the table changes |
| ProcessRoute.Processed | app/api/process-resume/route.ts:19-26 | the updated record is "Completed" with the placeholder text and a 65..90 score, satisfies the lifecycle invariant, and no other field changes |
| ProcessRoute.ProcessKeepsValid | app/api/process-resume/route.ts:19-26 | processing keeps ids unique and every completed record scored |
| ProcessRoute.ProcessProvidesText | app/api/process-resume/route.ts:11-26 | after processing, the record has non-empty text, so the job-match text check passes |
| JobMatchApiRoute.CleanReply | app/api/job-match/route.ts:37-40 | the text handed to `JSON.parse` contains no ``` and is trimmed |
| JobMatchApiRoute.MergeJobMatch | app/api/job-match/route.ts:48-51 | the merged analysis keeps every prior key other than `jobMatch` with its value, and `jobMatch` holds the parsed result |
| JobMatchApiRoute.Post | app/api/job-match/route.ts:5-63 | 400 exactly for a missing or empty input, 404 exactly for an absent or textless record, and 200 exactly when the reply parses; the response equals the stored `aiAnalysis.jobMatch`; only that record's `aiAnalysis` changes; every other outcome writes nothing |
| JobMatchApiRoute.AnyRecordReachable | app/api/job-match/route.ts:16-53 | with no owner check, any request naming a record with text updates that record, whoever owns it |
| JobMatchApiRoute.PostAsWritten | app/api/job-match/route.ts:3-63 | where the bundler only warns about the missing export, `matchJobDescription` is undefined, and the route never answers 200 and never writes; it answers 500 exactly for a bad body or a request that passes both checks |
| JobMatchApiRoute.MatchFailsAsWritten | app/api/job-match/route.ts:28-31 | a well-formed request for a record with text gets 500 as written, and 200 once the model answers with parseable text |
| JobMatchRoute.Post | app/job-match/route.ts:6-49 | 401 exactly when signed out, 400 exactly when the caller's record is absent or has no text, and 200 exactly when the model answered; the stored top-level `jobMatch` equals the response; only that field of that record changes |
| JobMatchRoute.ForeignRecordIsAbsent | app/job-match/route.ts:15-27 | a record owned by someone else gives 400 "Resume not processed yet" and no change |
| JobMatchRoute.StatusNotConsulted | app/job-match/route.ts:22-39 | an owned record with text gets its `jobMatch` set whatever its status |
| JobMatchRoute.PostAsWritten | app/job-match/route.ts:4-48 | where the bundler only warns about the missing export, `matchJobDescription` is undefined, and the route never answers 200 and never writes; it answers 500 exactly for a signed-in caller with a bad body or a record ready to match |
| JobMatchRoute.MatchFailsAsWritten | app/job-match/route.ts:29-32 | the owner of a record with text gets 500 as written, and 200 once the model answers |
| RewriteRoute.Post | app/api/rewrite-resume/route.ts:8-58 | the table is never written; 401 exactly when signed out, 404 exactly when the caller's record is absent or textless, 500 on a bad body or a model failure, and otherwise `{ rewritten }` with the model's text |
| RewriteRoute.ForeignRecordNotFound | app/api/rewrite-resume/route.ts:17-26 | a record owned by someone else gives 404 |
| RewriteRoute.OwnerGetsRewrite | app/api/rewrite-resume/route.ts:17-50 | the owner of a record with text gets the model's text back unchanged |
| ResumesRoute.Get | app/api/resumes/route.ts:5-23 | signed out gives `{ resumes: [] }`; signed in gives exactly the caller's records, newest first; the table is unchanged |
| AnalyzeRoute.Get | app/api/analyze/route.ts:5-21 | signed out gives 401; signed in gives exactly the caller's records, newest first; the table is unchanged |
| AnalyzeRoute.SameListAsResumesRoute | app/api/analyze/route.ts:15-18 | both listing routes return the same records, each as often, both newest first; they also agree on the order of records with equal `uploadedAt`, but only because the model fixes one tie order |
| Seqs.Keep | app/history/page.tsx:43-49 | `filter` keeps an element exactly when it is in the input and passes the test |
| Seqs.KeepCounts | app/history/page.tsx:43-49 | every kept element occurs as often as in the input, and every other not at all |
| Seqs.KeepIsSubsequence | app/history/page.tsx:43-49 | the kept elements stay in their original order |
| History.Filtered | app/history/page.tsx:39-53 | the shown list is an order-preserving subsequence holding exactly the records that match the lowercased search (when one is typed) and the status (unless "all"), each as often as before |
| History.ByName | app/history/page.tsx:42-46 | the search pass keeps, in order and with their counts, exactly the records whose lowercased name contains the lowercased search, and keeps everything when the search is empty |
| History.ByStatus | app/history/page.tsx:48-50 | the status pass keeps, in order and with their counts, exactly the records with that status, and keeps everything for "all" |
| History.FilteredIsOnePass | app/history/page.tsx:40-52 | the two filter passes equal one filter on the combined condition |
| History.NoFilterShowsAll | app/history/page.tsx:40-52 | an empty search with "all" returns the list unchanged |
| History.FilteredIdempotent | app/history/page.tsx:39-53 | filtering the filtered list again with the same choices changes nothing |
| Lifecycle.StepKeepsValid | app/api/uploadthing/core.ts:19-27 | every handler keeps ids unique and keeps each record "Processing" without a score or "Completed" with one |
| Lifecycle.RunKeepsValid | app/api/process-resume/route.ts:19-26 | any sequence of requests keeps that invariant |
| Lifecycle.CompletedHasScore | app/api/process-resume/route.ts:23-24 | from an empty table, a "Completed" record always has a score and a "Processing" one never has |
| Lifecycle.UploadThenProcess | app/api/process-resume/route.ts:19-26 | an upload followed by processing yields a completed, 65..90-scored record with text that the owner's job match accepts |

## Left out

- Prompt construction and the `generateContent` calls are network I/O. Each reply is an input: `Answered(text)`, or `Unavailable` for a thrown error.
- `matchJobDescription` does not exist in `lib/gemini.ts` (see "## Findings"). The corrected routes take its outcome as an input. The open route treats the result as a string, calling `.replace` on it (app/api/job-match/route.ts:37), so `JobMatchApiRoute.Post` takes an `AiReply<string>`. The signed-in route stores and returns the result as it is (app/job-match/route.ts:37-41), so `JobMatchRoute.Post` takes an `AiReply<Json>`.
- `JSON.parse` is an uninterpreted parameter. Parsing JSON text is out of scope.
- Prisma, Clerk (`auth`, `getAuth`) and UploadThing transport are replaced by the record sequence and an optional user id. This covers the 4MB upload limit, database errors (such as the 500 branch at app/api/resumes/route.ts:19-21) and the database's own id and timestamp generation, which become inputs.
- Request fields that are JSON values other than strings are not modelled. On the signed-in routes, an absent `resumeId` is not modelled either, because Prisma drops an undefined filter and the outcome then depends on which record the database returns first.
- `Math.random` and floating-point arithmetic are abstracted as an integer draw in 0..25.
- Date parsing and formatting are out of scope; `uploadedAt` is only an ordering key.
- Text.Lower: ASCII letters only; Unicode case mapping in `toLowerCase` is not modelled.
- JsonValues.SpreadEntries: spreading a string in JavaScript yields one entry per UTF-16 code unit; the model yields one per character, which differs only for characters outside the Basic Multilingual Plane.
- Store.SortNewestFirst: records with equal `uploadedAt` come back in an order the database does not specify; the model fixes one.
- JSON member order is not modelled, neither in the stored `aiAnalysis` and `jobMatch` columns nor in response bodies such as `NextResponse.json(parsed)` (app/api/job-match/route.ts:55, app/job-match/route.ts:41).
- Concurrent requests on the same record are out of scope; requests are served one at a time.
- The UI pages and components, `middleware.ts` and `lib/extractPdfText.ts` have no logic to prove, and the history page's fetch step (app/history/page.tsx:23-37) is outside the filter.
- The history page stores the whole `{ resumes }` envelope that app/api/resumes/route.ts returns as if it were the list (app/history/page.tsx:27-29), and the dashboard page does the same with `setResumes(data)`. As written, the filter of app/history/page.tsx:42-50 therefore receives an object, not an array. `History.Filtered` models the filter on the list that was evidently meant.
- app/api/resumes/[id]/route.ts (fetching and deleting one résumé) is not part of this model.

## Findings

| source | as written | input that shows it | evidently intended | confidence | as-written member | corrected member |
|---|---|---|---|---|---|---|
| app/api/job-match/route.ts:3 | `matchJobDescription` is imported from `lib/gemini.ts`, which exports only `analyzeResume`; where the bundler only warns about the missing export, the binding is undefined and the call at line 28 throws into the catch, answering 500 (modelled by `JobMatchApiRoute.PostAsWritten`); a type-checked build refuses the file, so the route never runs; either way no request reaches 200 or writes | any request with a `resumeId` of a record with text and a non-empty `jobDescription` (`JobMatchApiRoute.MatchFailsAsWritten`) | the model's match is cleaned, parsed, merged into `aiAnalysis` and returned with 200 | high that no request succeeds; the 500 reply assumes a bundler that only warns; not executed | JobMatchApiRoute.PostAsWritten | JobMatchApiRoute.Post |
| app/job-match/route.ts:4 | the same missing import; where the bundler only warns, the call at line 29 throws into the catch, answering 500; a type-checked build refuses the file; either way `jobMatch` is never stored | the signed-in owner naming their own record with text (`JobMatchRoute.MatchFailsAsWritten`) | the model's result is stored in `jobMatch` and returned with 200 | high that no request succeeds; the 500 reply assumes a bundler that only warns; not executed | JobMatchRoute.PostAsWritten | JobMatchRoute.Post |
