# Bootstrap 3 → 5 migration engine, modelled in Dafny

This project models the text-rewriting and reporting engine of a web tool that migrates Bootstrap 3
projects to Bootstrap 5, and proves properties of that model. It covers:

- **The rule tables** (`MigrationTypes`). These are the ordered table of legacy class → replacement
  class, the 20 script-issue signatures, the migration steps, the report record shapes, and the
  mock report.
- **The migration pipeline of the upload panel** (`ClassRewrite`, `Detection`, `UploadSection`).
  - The upload validator and the reset are a class, `UploadPanel`, whose fields are the file, the
    status and the results.
  - `processHTMLContent` renames classes inside `class="…"` attributes. `processCSSContent` renames
    `.key` selectors.
  - Line-based signature detection reuses one global `RegExp`. Its `lastIndex` carries over from
    line to line.
  - `performMigration` folds the per-file results into totals.
  - `removeDuplicateWarnings` keeps the first warning per (type, message).
- **The simulated "LLM" service** (`AttributeRewrite`, `ButtonStyle`, `ModalHeader`,
  `LlmService`).
  - The modal converter rewrites a legacy modal header into a title-first Bootstrap 5 header, then
    renames the `data-toggle`, `data-target` and `data-dismiss` attributes and `btn-default`.
  - The analyzer runs five fixed checks.
  - The service dispatches on the prompt type and wraps the call in a prompt builder and an error
    handler.
- **The progress bar predicates** (`ProgressIndicator`) and **the staggered animation delays**
  (`AnimationUtils`).
- **The JavaScript string built-ins the code relies on** (`Text`): `indexOf`, `includes`,
  `split`, `join`, `trim`, `substring`, and number-to-string conversion in template literals.

Each regular expression of the source becomes a dedicated scanner over `seq<char>`.

- In a pattern string of `AttributeRewrite`, a `"` stands for the quote class `["']`.
- A word character is `[A-Za-z0-9_]`, so `-` is a word boundary and `col-xs` matches inside
  `col-xs-12`.
- A class-attribute match is `class=`, a quote, the maximal run of non-quote characters, and a
  quote. The run must hold the key at word boundaries.
- The signatures that begin with `$` followed by another character can never match: `$` is the
  end-of-input anchor. Every other signature is a literal substring.

Where the code's behaviour may be unexpected, the model follows the code:

- The markup pass counts a key in every attribute where it occurs as a `\b`-bounded word. The
  count is taken over the original text and includes identity entries. With `hidden` in the table
  after `hidden-xs`, an attribute `class="hidden-xs"` therefore adds 2 to the change count, not 1
  (`ClassRewriteExamples.HiddenXsCountsTwice`, shown on the two-entry table of those keys).
- Inside a matched attribute, the code renames the first *literal* occurrence of the key, not the
  word-bounded one. `class="dwell well"` becomes `class="dcard card-body well"`
  (`ClassRewriteExamples.FirstLiteralRewritten`).
- The table order applies `panel` before `panel-heading`. So `class="panel-heading"` becomes
  `class="card-heading"` and counts twice (`ClassRewriteExamples.PanelFirst`, shown on the
  two-entry table of `panel` and `panel-heading`; the lemmas do not cover the other entries of the
  full table).
- The mock report is not self-consistent:
  - its file summaries add up to 9 script issues and 208 class changes, while its totals say 12
    and 328;
  - 36 modified files differ from 42 total files;
  - each summary with issues (2, 4 and 3) lists exactly one warning and `styles.css` lists none,
    while a run lists one warning per detected issue (`UploadSection.SummarizeFile`)
  (`UploadSection.MockReportConsistency`).

## Model

| member | source | states |
|---|---|---|
| MigrationTypes.StepValuesDistinct | src/utils/migrationTypes.ts:5-14 | the eight migration steps carry eight different string values |
| MigrationTypes.ClassTableShape | src/utils/migrationTypes.ts:67-186 | the class table has 85 entries in declaration order; `panel` (entry 21) comes right before `panel-heading` (entry 22); `hidden-xs` and `panel-primary` expand to several classes |
| MigrationTypes.IdentityEntries | src/utils/migrationTypes.ts:70-163 | `col-sm`, `container-fluid`, `img-thumbnail`, `invisible`, `pagination-lg`, `pagination-sm` and `alert-link` map to themselves |
| MigrationTypes.ManualFixesFor | src/components/UploadSection.tsx:320-322 | the manual fixes for n issues are ceil(n/2): n ≤ 2r ≤ n + 1 |
| Detection.ParseSignature | src/utils/migrationTypes.ts:191-272 | a signature that starts with `$` and has more characters never matches; a signature made only of plain characters is the literal text itself, and only such a signature is literal |
| Detection.JsIssueCount | src/utils/migrationTypes.ts:191-272 | there are exactly 20 signatures, each with a non-empty message |
| Detection.AnchoredSignaturesNeverMatch | src/utils/migrationTypes.ts:193-262 | the ten `$.fn.*` signatures and the three `$\(…\)` signatures never match |
| Detection.RemainingSignaturesLiteral | src/utils/migrationTypes.ts:233-270 | the five `data-*=` signatures, `affix` and `data-spy` are literal substring tests |
| Detection.Test | src/components/UploadSection.tsx:387-391 | `RegExp.test` with a carried `lastIndex`: a hit is the first literal occurrence at or after `lastIndex`, and `lastIndex` moves to the end of that occurrence; a miss resets `lastIndex` to 0 and means there is no occurrence at or after the old `lastIndex` |
| Detection.HitCarriesIndexToNextLine | src/components/UploadSection.tsx:385-393 | after a hit on one line, the next line is reported exactly when the literal occurs in it at or after the index where that hit ended |
| Detection.ScanLines | src/components/UploadSection.tsx:388-397 | every report carries the signature's message and a line number within the scanned lines; there is at most one report per line |
| Detection.ScanLinesIncreasing | src/components/UploadSection.tsx:390-397 | reports of one signature come in strictly increasing line order |
| Detection.ScanLinesSound | src/components/UploadSection.tsx:390-397 | every reported line contains the signature's literal text |
| Detection.NeverMatchesSilent | src/components/UploadSection.tsx:386-397 | an anchored signature reports nothing |
| Detection.ScanLinesFindsFresh | src/components/UploadSection.tsx:390-397 | a line holding the literal is reported when the previous line did not hold it, so `lastIndex` is 0 there |
| Detection.FirstOccurrenceReported | src/components/UploadSection.tsx:390-397 | the first line holding the literal is always reported |
| Detection.CarriedIndexHidesSecondLine | src/components/UploadSection.tsx:387-397 | the carried `lastIndex` hides a hit: `data-spy` on lines 1 and 2 is reported only for line 1 |
| Detection.DetectIssuesSplit | src/components/UploadSection.tsx:386-398 | `DetectIssues` runs signature by signature, so the issues for a table `a + b` are those for `a`, then those for `b` |
| Detection.DetectIssuesBounds | src/components/UploadSection.tsx:386-398 | every issue has a line number between 1 and the number of `\n`-separated lines, and the message of a literal table entry |
| Detection.OnlyLiteralEntriesFire | src/utils/migrationTypes.ts:233-270 | only the `data-*=`, `affix` and `data-spy` entries can produce issues |
| ClassRewrite.KeyAtLiteral | src/components/UploadSection.tsx:376 | a key without `.` matches exactly its literal text |
| ClassRewrite.LastKeyHit | src/components/UploadSection.tsx:376 | the greedy first run of the pattern puts the key at a word-bounded occurrence in the run, or reports none |
| ClassRewrite.LastKeyHitIsLast | src/components/UploadSection.tsx:376 | no position of the run after the one the greedy run settles on is a hit: the key sits at its last occurrence |
| ClassRewrite.AttrMatchAt | src/components/UploadSection.tsx:376 | a match at `i` starts with `class=` and a quote and ends just after a closing quote |
| ClassRewrite.AttrMatchAtIff | src/components/UploadSection.tsx:376 | the attribute pattern matches at `i` iff there are `class=`, a quote, and a quote-free run holding the key at word boundaries |
| ClassRewrite.NoHitOutsideRun | src/components/UploadSection.tsx:376 | when the run has no hit, no hit anywhere is reachable without crossing a quote |
| ClassRewrite.MatchKeyHit | src/components/UploadSection.tsx:376 | the key hit the scan settles on lies wholly inside the matched attribute |
| ClassRewrite.AttrNoMatchUnchanged | src/components/UploadSection.tsx:380-382 | with no matching attribute, the markup rewrite leaves the text unchanged |
| ClassRewrite.AttrIdentityUnchanged | src/components/UploadSection.tsx:380-382 | an identity entry leaves the text unchanged |
| ClassRewrite.AttrRewriteLength | src/components/UploadSection.tsx:377-382 | for a key without `.`, the rewritten text's length is the old length plus the match count × (length of replacement − length of key): one rename per counted attribute |
| ClassRewrite.MatchRewriteLength | src/components/UploadSection.tsx:381 | for a key without `.`, inside one matched attribute, `ReplaceFirst` (`String.replace` with a string key) renames exactly one literal occurrence of the key, so the length changes by `|value| - |key|` |
| ClassRewrite.SelectorRewriteLength | src/components/UploadSection.tsx:411-415 | the CSS rewrite changes the length by the selector count × (length of replacement − length of key) |
| ClassRewrite.SelectorNoMatchUnchanged | src/components/UploadSection.tsx:411-415 | with no `.key` selector, the CSS rewrite leaves the text unchanged |
| ClassRewrite.SelectorIdentityUnchanged | src/components/UploadSection.tsx:415 | an identity entry whose key has no `.` (every identity entry of the table) leaves the stylesheet unchanged |
| ClassRewrite.RewriteHtmlSplit | src/components/UploadSection.tsx:375-383 | `RewriteHtmlClasses` applies entries in table order: rewriting with `a + b` is rewriting with `a`, then with `b` |
| ClassRewrite.HtmlChangesSplit | src/components/UploadSection.tsx:375-378 | `HtmlClassChanges` counts on the original content, so the count for `a + b` is the sum of the counts |
| ClassRewrite.DropIdentityHtml | src/components/UploadSection.tsx:380-382 | removing an identity entry from the table does not change the rewritten markup |
| ClassRewrite.RewriteCssSplit | src/components/UploadSection.tsx:409-416 | `RewriteCssSelectors` applies entries in table order: `a + b` is `a`, then `b` |
| ClassRewrite.CssChangesSplit | src/components/UploadSection.tsx:409-413 | `CssSelectorChanges` counts on the original content and adds up over the table |
| ClassRewrite.DropIdentityCss | src/components/UploadSection.tsx:415 | removing an identity entry whose key has no `.` does not change the rewritten stylesheet |
| ClassRewriteExamples.PanelFirst | src/components/UploadSection.tsx:375-383 | on the two-entry table with `panel` before `panel-heading`, `class="panel-heading"` counts 2 and becomes `class="card-heading"` |
| ClassRewriteExamples.HiddenXsCountsTwice | src/components/UploadSection.tsx:375-383 | on the two-entry table `hidden-xs`, `hidden`, the attribute `class="hidden-xs"` counts 2 changes |
| ClassRewriteExamples.FirstLiteralRewritten | src/components/UploadSection.tsx:380-382 | in `class="dwell well"` the word `well` matches, but the first literal `well`, inside `dwell`, is the one renamed |
| ClassRewriteExamples.DottedKeyCountedNotRenamed | src/components/UploadSection.tsx:376-381 | a key holding `.` is a wildcard in the attribute pattern but literal in the inner `replace`: `a.` counts the attribute `class="ab"` once and leaves it unchanged |
| ClassRewriteExamples.CardHeadingHasNoPanelHeading | src/components/UploadSection.tsx:376 | `panel-heading` no longer matches once `panel` has been renamed |
| UploadSection.UploadVerdict | src/components/UploadSection.tsx:28-45 | no toast iff the file is a ZIP (by MIME type or `.zip` name) of at most 50·1024·1024 bytes; a non-ZIP file gets the type toast, an oversized ZIP the size toast |
| UploadSection.UploadBoundaries | src/components/UploadSection.tsx:29-38 | 52428800 bytes are accepted and 52428801 rejected; the MIME type alone suffices; a name ending `.zip.bak` is rejected |
| UploadSection.UploadPanel.constructor | src/components/UploadSection.tsx:11-17 | the panel starts with no file, status idle at 0 % and no results |
| UploadSection.UploadPanel.ValidateAndSetFile | src/components/UploadSection.tsx:28-53 | acceptance stores the file, resets the status to idle at 0 % and clears the results; rejection changes nothing and returns the toast |
| UploadSection.UploadPanel.ResetMigration | src/components/UploadSection.tsx:460-467 | clears the file and results and sets the status to idle at 0 % |
| UploadSection.TestEachLine | src/components/UploadSection.tsx:390-397 | the line loop with its shared `RegExp` returns exactly `ScanLines(sig, message, lines, 0, 0)`, the carried-index scan specified by `Detection.Test` |
| UploadSection.DetectJsIssues | src/components/UploadSection.tsx:386-398 | the loop over the signature table returns exactly `DetectIssues(content, BootstrapJsIssues)`: each entry's `ScanLines` report, signature by signature |
| UploadSection.ProcessHtmlContent | src/components/UploadSection.tsx:368-401 | returns `RewriteHtmlClasses(content, BootstrapClassMappings)` (the table fold of attribute renames), `HtmlClassChanges` (attribute counts summed over the table, on the original content) and `DetectIssues(content, BootstrapJsIssues)` |
| UploadSection.ProcessCssContent | src/components/UploadSection.tsx:404-419 | returns `RewriteCssSelectors(content, BootstrapClassMappings)` (the table fold of `.key` selector renames) and `CssSelectorChanges` (selector counts summed over the table, on the original content) |
| UploadSection.ProcessJsContent | src/components/UploadSection.tsx:422-442 | returns the script unchanged, with `DetectIssues(content, BootstrapJsIssues)` |
| UploadSection.IssueWarnings | src/components/UploadSection.tsx:288-295 | one JavaScript warning per issue, in order, carrying its message, line, file name and suggestion |
| UploadSection.SummarizeFile | src/components/UploadSection.tsx:277-332 | a summary keeps the file's name and type and has exactly `jsIssues` warnings; CSS files have no issues; scripts have no class changes; other types have zero counts |
| UploadSection.Summaries | src/components/UploadSection.tsx:277-332 | one summary per file, in input order |
| UploadSection.ProcessFile | src/components/UploadSection.tsx:277-335 | the per-file branch computes the file's summary |
| UploadSection.RemoveDuplicateWarnings | src/components/UploadSection.tsx:445-458 | the loop with its key set returns exactly `Dedupe(warnings)`, the first-of-each-key subsequence pinned down by the `Dedupe*` lemmas |
| UploadSection.PrependGeneralNotes | src/components/UploadSection.tsx:338-354 | the result is `GeneralNotes(...) + fileWarnings`: the breakpoint note (when classes were replaced) comes first, then the jQuery note naming min(#files, issues) (when issues were found), then the file warnings |
| UploadSection.PerformMigration | src/components/UploadSection.tsx:270-365 | total and modified files are the file count; totals are the sums over the summaries; manual fixes are the sum of ceil(jsIssues/2); the warnings are the deduplicated general notes followed by the file warnings |
| UploadSection.WarningKeyIdentifies | src/components/UploadSection.tsx:450 | two warnings share a key iff they share type and message |
| UploadSection.DedupeSubsequence | src/components/UploadSection.tsx:445-458 | `Dedupe`'s output is a subsequence of the input, so order is preserved |
| UploadSection.DedupeKeepsFirsts | src/components/UploadSection.tsx:445-458 | the first warning of every key is kept |
| UploadSection.DedupeOnlyFirsts | src/components/UploadSection.tsx:445-458 | every kept warning is the first of its key |
| UploadSection.DedupeKeys | src/components/UploadSection.tsx:445-458 | no key is lost or invented |
| UploadSection.DedupeDistinct | src/components/UploadSection.tsx:445-458 | the kept warnings have pairwise distinct keys |
| UploadSection.DedupeDistinctUnchanged | src/components/UploadSection.tsx:445-458 | a list whose keys are already distinct is returned unchanged |
| UploadSection.DedupeIdempotent | src/components/UploadSection.tsx:445-458 | deduplicating twice is deduplicating once |
| UploadSection.DedupeKeepsHead | src/components/UploadSection.tsx:445-458 | the first warning always survives |
| UploadSection.ReportNotes | src/components/UploadSection.tsx:338-362 | when classes were replaced, the breakpoint note heads the final warnings; when issues were found, the jQuery note naming min(#files, issues) is among them; every file warning's key survives |
| UploadSection.ManualFixesBounds | src/components/UploadSection.tsx:320-322 | the issue total ≤ 2 × manual fixes ≤ issue total + number of files |
| UploadSection.MockReportConsistency | src/utils/migrationTypes.ts:277-359 | in the mock report, modified ≤ total files and the manual fixes (5) are the sum of ceil(n/2) over 2, 4, 0 and 3; its summaries add up to 9 issues and 208 changes, not its totals of 12 and 328; each summary with issues lists exactly one warning and `styles.css` none |
| AttributeRewrite.MatchesPlainText | src/utils/llmService.ts:102 | a pattern without a quote class matches exactly its literal text |
| AttributeRewrite.ReplaceAllUntouched | src/utils/llmService.ts:101-105 | `ReplaceAll` (a global `replace`) with no match leaves the text unchanged |
| AttributeRewrite.ReplaceAllFree | src/utils/llmService.ts:101-105 | after `ReplaceAll`, a pattern that matches only where the replaced one did is gone, provided the replacement text can neither hold it nor complete it with what follows |
| ButtonStyle.ButtonClassAt | src/utils/llmService.ts:108 | the button pattern matches at `i` iff there are `class=`, a quote, a quote-free run holding `btn-default`, and a quote; the captured groups sit around the last `btn-default` of the run |
| ButtonStyle.ButtonReplacementShape | src/utils/llmService.ts:108 | a rewritten attribute is double-quoted whatever the input quotes, is two characters longer, and keeps an earlier non-overlapping `btn-default` of the same run at its offset |
| ButtonStyle.ButtonStyleUntouched | src/utils/llmService.ts:108 | with no button match, `ButtonStyle` (the global `btn-default` replace) leaves the text unchanged |
| ButtonStyle.LegacyFormsSurviveButtonStep | src/utils/llmService.ts:101-108 | `ButtonStyle` never reintroduces `data-toggle="modal"`, `data-target=` or `data-dismiss="modal"` in either quote style |
| ModalHeader.FirstFitExact | src/utils/llmService.ts:135-136 | placing each piece of a lazy pattern at its earliest position succeeds iff some placement of the whole pattern exists, which is the question `RegExp.test` answers |
| ModalHeader.CloseBeforeTitle | src/utils/llmService.ts:135-136 | the close-before-title test holds iff the header, close button and heading pattern occurs somewhere in the page |
| ModalHeader.HeaderAt | src/utils/llmService.ts:91 | a header match starts with the legacy opening tag; its title lies between a `>` and a `</hN>` closing tag; it ends with `</div>` |
| ModalHeader.HeaderAtExact | src/utils/llmService.ts:91 | a header matches at `i` iff the opening tag `<div class="modal-header">` (either quote style) is there and the rest of the pattern can be placed after it |
| ModalHeader.HeaderTemplateOrder | src/utils/llmService.ts:94-97 | a converted header opens with `<div class="modal-header">`, then the `h5` with the trimmed title, then the `btn-close` button with `data-bs-dismiss="modal"`, and ends with `</div>`: the title precedes the close button |
| ModalHeader.HeaderTemplateKeepsOnlyTitle | src/utils/llmService.ts:93-97 | the converted header depends only on the trimmed title; all other header content is discarded |
| ModalHeader.ConvertHeadersUntouched | src/utils/llmService.ts:91-98 | a page without a legacy header opening tag passes `ConvertHeaders` (the global header replace) unchanged |
| LlmService.ConvertBootstrapModal | src/utils/llmService.ts:87-111 | the chain of reassignments returns exactly `ConvertedModal(html)` (`ConvertHeaders`, then the `ReplaceAll` steps for toggle, target and dismiss, then `ButtonStyle`), and the result holds no `data-toggle="modal"`, no `data-dismiss="modal"` (either quote style) and no `data-target=` |
| LlmService.ToggleStepFree | src/utils/llmService.ts:101 | after the toggle step, no `data-toggle=["']modal["']` remains |
| LlmService.TargetStepFree | src/utils/llmService.ts:102 | after the target step, no `data-target=` remains and no toggle attribute has appeared |
| LlmService.DismissStepFree | src/utils/llmService.ts:105 | after the dismiss step, no dismiss attribute remains and neither earlier form has appeared |
| LlmService.ConvertedModalLegacyFree | src/utils/llmService.ts:100-108 | for every input, `ConvertedModal` holds none of the three legacy modal attributes |
| LlmService.Pushed | src/utils/llmService.ts:113-139 | after k checks, at most k messages have been pushed, each one of the first k messages |
| LlmService.AnalyzeBootstrapIssues | src/utils/llmService.ts:113-141 | the five conditional pushes return exactly `Analysis(html)`, whose content `LlmService.AnalysisShape` and `LlmService.AnalysisChecks` fix |
| LlmService.MessagesDistinct | src/utils/llmService.ts:116-137 | the five messages differ from each other and hold no line break |
| LlmService.PushedHolds | src/utils/llmService.ts:113-139 | message j is pushed after k checks iff j < k and check j fired |
| LlmService.PushedSubsequence | src/utils/llmService.ts:113-139 | the pushed messages are a subsequence of the message list, in check order |
| LlmService.PushedDistinct | src/utils/llmService.ts:113-139 | no message is pushed twice |
| LlmService.AnalysisShape | src/utils/llmService.ts:113-141 | the analysis is a subsequence of the five messages in fixed order, without repeats, and each message appears iff its check fires |
| LlmService.AnalysisChecks | src/utils/llmService.ts:116-138 | the toggle, close-class, `btn-default` and jQuery messages appear iff their literal `includes` tests hold (the close-class one needs both `class="close"` and `data-dismiss="modal"`); the header message appears iff the close-before-title pattern occurs |
| LlmService.AnalysisJoined | src/utils/llmService.ts:71-77 | the analyze response is empty iff no check fired, and splitting it on `\n` gives the messages back |
| LlmService.SimulateLlmResponse | src/utils/llmService.ts:56-85 | returns `Simulated(t, html)`: every response succeeds without an error; convert returns `ConvertedModal(html)`, which is free of legacy attributes; analyze returns `Analysis(html)` joined by `\n`, empty iff no check fired; suggest returns the fixed sentence |
| LlmService.Prompt | src/utils/llmService.ts:19-38 | the prompt is the instruction text for its type followed by a prefix of the page of at most 1500 characters |
| LlmService.PromptSeesOnlyPrefix | src/utils/llmService.ts:23 | pages that agree on their first 1500 characters give the same prompt |
| LlmService.AnalyzeBootstrapCode | src/utils/llmService.ts:13-52 | the response succeeds iff nothing was thrown; without a throw it is the simulated response; a throw gives `success: false`, empty content, and the error's message or "Unknown error in LLM service" |
| ProgressIndicator.FindIndexFrom | src/components/ProgressIndicator.tsx:27-29 | `findIndex`: the first position whose id is the step, or -1 iff no entry has it |
| ProgressIndicator.StepIndices | src/components/ProgressIndicator.tsx:19-29 | Upload, Extract, Analyze, Convert and Report sit at 0–4; idle, complete and error at -1 |
| ProgressIndicator.StepIndexOfEntry | src/components/ProgressIndicator.tsx:19-29 | every listed step is found at its own position |
| ProgressIndicator.ActiveNotComplete | src/components/ProgressIndicator.tsx:32-40 | no step is both active and complete |
| ProgressIndicator.CompleteIff | src/components/ProgressIndicator.tsx:36-40 | a step is complete iff the current step is listed and the step is unlisted or comes earlier |
| ProgressIndicator.NothingCompleteOffList | src/components/ProgressIndicator.tsx:36-40 | while idle, complete or failed, no step is complete |
| ProgressIndicator.CompleteDownward | src/components/ProgressIndicator.tsx:36-40 | completion is downward closed along the bar |
| ProgressIndicator.OffListStepCountsComplete | src/components/ProgressIndicator.tsx:36-40 | idle, complete and error count as complete whenever the run is on a listed step |
| AnimationUtils.StaggeredDelays | src/utils/animationUtils.ts:12-20 | exactly `totalItems` entries, none for a negative count; entry i names `i*baseDelay` when that is at most 500, and 500 otherwise |
| AnimationUtils.DelaysBoundedAndSorted | src/utils/animationUtils.ts:13-19 | for a non-negative spacing, each entry is `delay-` and the decimal digits of a delay between 0 and 500 that read back to it, and delays never decrease |
| AnimationUtils.NegativeSpacing | src/utils/animationUtils.ts:13-15 | a negative spacing is not clamped: entry i > 0 is `delay--` followed by the digits of i·\|baseDelay\| |
| AnimationUtils.DefaultDelays | src/utils/animationUtils.ts:10-19 | with the default spacing of 100, entries 0–5 are `delay-0` … `delay-500` and later entries are `delay-500` |
| AnimationUtils.SevenDefaultDelays | src/utils/animationUtils.ts:10-19 | seven items give delay-0, 100, 200, 300, 400, 500, 500 |
| Text.IndexOfFrom | src/utils/llmService.ts:117 | `indexOf` returns the first occurrence at or after the start, or -1 when there is none |
| Text.ContainsIff | src/utils/llmService.ts:117 | `includes` holds iff the text occurs at some position |
| Text.LastIndexUpTo | src/utils/llmService.ts:108 | the last occurrence at or before a bound, or -1 |
| Text.Take | src/utils/llmService.ts:23 | `substring(0, n)` is a prefix of length min(n, length) |
| Text.JoinSplit | src/components/UploadSection.tsx:388 | joining the `\n`-split lines with `\n` gives the content back |
| Text.SplitJoin | src/utils/llmService.ts:76 | splitting a `\n`-join of line-free pieces gives the pieces back |
| Text.TrimSpec | src/utils/llmService.ts:95 | `trim` removes exactly the leading and trailing white space |
| Text.TrimIdempotent | src/utils/llmService.ts:95 | trimming twice is trimming once |
| Text.NatToStringRoundTrip | src/utils/animationUtils.ts:15 | the decimal digits a template literal prints read back to the number |
| Text.NatToStringInjective | src/utils/animationUtils.ts:15 | different numbers print differently |

## Left out

- User interface: the JSX of the upload panel and the progress bar, the dashboard, the pages, the
  toast display, drag and drop, and the file dialog. A toast is returned as a value instead.
- Timing and randomness: `simulateProgress`, `startMigration`, `downloadResults`, the 1200 ms delay
  of the simulated service, and `processFileContents` with its random sample generator.
  `performMigration` takes an explicit file list instead.
- DOM animation helpers (`triggerAnimation`, `createScrollAnimationObserver`) and the credential
  prompt of `ToastApiKeyAction.tsx`; they depend on the DOM, timers and `prompt()`.
- `console.error` in the service's error handler: logging only.
- A general regular-expression engine: each pattern is a dedicated scanner. Class keys are read as
  patterns where `.` is any character except a line terminator; every key of the table is literal
  otherwise.
- Character semantics: JavaScript strings count UTF-16 code units, while the model counts `char`s.
  `trim` covers ASCII white space only.
- Idempotence of the class rewrite is not claimed; it fails in the code, since `close` becomes
  `btn-close` and `\bclose\b` then matches again.
- ClassRewrite.AttrRewriteLength: holds for keys without `.` only. The table's three CDN URL keys
  contain `.`, which the attribute pattern reads as any character while the inner `replace` reads
  it literally, so an attribute counted for such a key may be left unrenamed
  (`ClassRewriteExamples.DottedKeyCountedNotRenamed`).
- ClassRewrite.MatchRewriteLength: for the same reason, holds for keys without `.` only.
- ModalHeader.HeaderAt: the converter's header pattern is matched by placing each lazy piece at its
  earliest position. `ModalHeader.HeaderAtExact` proves that this succeeds exactly when the pattern
  matches at that position, but the captured title boundaries are not proved to equal those of
  the backtracking engine.
- LlmService.AnalyzeBootstrapCode: what the awaited call may throw is a parameter. The simulated
  call itself never throws.
- AnimationUtils.StaggeredDelays: counts and delays are integers. JavaScript numbers may be
  fractional: a fractional count is floored by `Array.from`, and a fractional spacing prints as
  e.g. `delay-50.5`, with floating-point rounding; neither is modelled.
- LlmService.SimulateLlmResponse: the prompt it receives is unused, as in the code, so no property
  mentions it.
