# Stirrup evaluation framework: a verified model

Stirrup's evaluation framework runs suites of tasks, judges the results, stores traces, and compares
a run with a baseline. This project models the parts of it that carry real invariants and proves
what they promise for every input, every schedule or every reachable state. `dafny verify
dfyconfig.toml` checks all of it.

| component | modules |
|---|---|
| trace store and manifest | `Lakehouse`, `LakehouseRuns` |
| unified diffs of golden fixtures | `DiffParser`, `DiffPrinter`, `DiffReconstruct`, `DiffPatch`, `DiffMarks`, `DiffAcceptance`, `DiffForms`, `GoldenDiff`, `GoldenAcceptance`, `Numerals` |
| composite judges and shadows | `JudgeTree`, `ShadowIsolation`, `JudgeHearings`, `JudgeNodes` |
| trial scheduling and trials policies | `TrialJobs`, `TrialScheduler`, `TrialPolicy`, `TrialRounds` |
| judge verdict cache | `PrintableText`, `TextEncoding`, `VerdictCache`, `Optional` |
| bounded text | `Bytes`, `DataFence`, `DecisionBudget`, `DecisionJson`, `Utf8Cut`, `NonceExtract`, `JsonText`, `DiffWriters` |
| comparison and statistics | `SignFlip`, `PassAtK`, `PassCurves`, `Comparison`, `ComparisonLaws`, `ComparisonPolicy`, `SortedStrings` |
| configuration field paths | `ConfigFields` |

Code that loops or changes fields is a method or a class proved against a specification function;
the promises are lemmas about that function. The worker pool and the concurrent store are state
machines whose actions are single steps.

## Where a promise holds only under a condition

- Queries agree with a full scan for every filter exactly when each manifest entry covers its file
  (`Lakehouse.ExactIffCoherent`). A lost append hides an overwritten trace
  (`Lakehouse.LostOverwriteHidesTrace`) and a recording whose two configurations disagree is hidden
  even by its own entry (`Lakehouse.DisagreeingRecordingIsHidden`); `Lakehouse.StoreKeepsSound` says
  exactly when a store operation keeps queries exact.
- A replayed reason equals the stored one except for stored reasons of 2049 or 2050 bytes, which are
  cut again (`PrintableText.ReasonRepeats`, `PrintableText.ReasonCanChange`).
- Swapping the sides of a comparison swaps regressions with improvements except where a flip
  threshold within 1e-9 of 1, which option validation accepts, lists a task that passed in full on
  both sides as a regression either way (`ComparisonLaws.SwapMirrorsChanges`,
  `ComparisonLaws.ThresholdNearOne`).

## Modelling choices

- Floats are exact reals, times and durations integers.
- JSON decoding, SHA-256, git and the judge model are parameters. A cache key is the triple it
  hashes, which takes the hash to be injective.
- In the diff modules a char stands for one byte. `PrintableText` works on Unicode scalar values with
  their UTF-8 lengths; `TextEncoding` proves that this is what happens to the bytes.
- A judge that only reads is a function of its parameters and the workspace, which is what a live
  judge cache gives.
- Directory listings, the outcome of each append or write, and the moment of cancellation are chosen
  freely by the run.
- The order of equal timestamps after sorting is left open, as the source's sort leaves it.
- The field `calls` of the cache state, `hashed` of the head writer, `writes` of the
  scheduler state and the `read` result of the nonce search only count or record what happened.
- A Go map from types to counts reads as zero where it has no key, so `active` is a total sequence.

## Model

| member | source | states |
|---|---|---|
| `DataFence.NeutraliseFenceMarkers` | eval/judge/datafence.go:53-73 | The byte loop with its run counter and builder yields the transducer `Neutral` on every input. |
| `DataFence.NeutralHasNoOpening` | eval/judge/datafence.go:53-73 | The rewritten text never contains "<<<". |
| `DataFence.IdentityExactlyWithoutOpening` | eval/judge/datafence.go:53-73 | The text is unchanged if and only if it contained no "<<<". |
| `DataFence.NeutralIdempotent` | eval/judge/datafence.go:53-73 | Rewriting twice is rewriting once. |
| `DataFence.NeutralOnlyInsertsSpaces` | eval/judge/datafence.go:53-73 | The output is the input with single spaces inserted, each between two "<"; nothing is dropped, changed or reordered. |
| `DataFence.NeutralOfConcat` | eval/judge/datafence.go:53-73 | The transducer can be resumed: a concatenation is rewritten piece by piece, carrying only the run counter. |
| `DataFence.NeutralIsPrefixMonotone` | eval/judge/datafence.go:53-73 | Prefixes are rewritten to prefixes, which the budget search relies on. |
| `DataFence.NeutralNeverShrinks` | eval/judge/datafence.go:53-73 | The output is at least as long as the input. |
| `DataFence.WrapHasExactlyItsOwnMarkers` | eval/judge/datafence.go:32-43 | For any content, and any label and nonce free of "<", the wrapped text contains "<<<" at exactly two places: its own opening and closing marker. |
| `DecisionBudget.DecisionSizes` | eval/judge/decisionreview.go:100-111 | The accumulator loop returns the state plus the longest question, and the state plus all questions. |
| `DecisionBudget.CheckDecisionLimits` | eval/judge/decisionreview.go:115-129 | Accepts a request if and only if it is within both protocol limits. |
| `DecisionBudget.Search` | eval/judge/decisionreview.go:149-150 | The binary search over a monotone predicate separates its falses from its trues (sort.Search). |
| `DecisionBudget.CutToRoom` | eval/judge/decisionreview.go:145-153 | The head before rune trimming is the longest prefix whose neutralised form fits the room, and the trimmed head still fits. |
| `DecisionBudget.FitDecisionBudget` | eval/judge/decisionreview.go:134-154 | Fails exactly when no room is left; otherwise the request built from the result passes the limit check for every 32-character nonce, and the head is the most that fits. |
| `DecisionBudget.NoticeEscaped` | eval/judge/decisionreview.go:80-95 | The JSON size of the fence notice is the same for every 32-character nonce, so measuring with a zero nonce is sound. |
| `DecisionBudget.NoteFitsReserve` | eval/judge/decisionreview.go:34-51 | The truncation note fits its reserve for every size an int can hold. |
| `DecisionBudget.StateSize` | eval/judge/decisionreview.go:80-95 | The state of any request is as long as the state with an empty head plus the neutralised head. |
| `DecisionBudget.RequestSize` | eval/judge/decisionreview.go:80-111 | The measured size of any request is bounded through the room its criteria and stat leave. |
| `DecisionBudget.FittingHeadPasses` | eval/judge/decisionreview.go:80-129 | A head that fits the room gives a request within the limits, whatever the nonce. |
| `DecisionJson.SizeIsMarshalled` | eval/judge/decisionreview.go:100-111 | The measured size of a question is the length of the bytes encoding/json writes for it. |
| `DecisionJson.LimitsMeaning` | eval/judge/decisionreview.go:115-129 | A request passes if and only if the state with any one question takes at most 31,488 bytes and with all of them at most 63,488. |
| `DecisionJson.RoomMeaning` | eval/judge/decisionreview.go:134-144 | The room is 31,328 bytes less the state and the question of a request without a head. |
| `DecisionJson.LongestFitMeaning` | eval/judge/decisionreview.go:145-150 | The head is the longest that fits: one byte more and its neutralised form is over the room. |
| `DecisionJson.CutIsWhole` | eval/judge/decisionreview.go:149-153 | On valid text the cut keeps whole characters, as many as fit. |
| `DecisionJson.SummaryShows` | eval/judge/diffreview.go:324-330 | The summary, or that there is none, stands before the diff. |
| `Utf8Cut.CapFinalAssistantText` | types/result.go:26-38 | Truncates exactly when a non-empty text is longer than the limit (negative limits count as zero), keeping the prefix up to the last rune start and appending the marker. |
| `Utf8Cut.TrimPartialRune` | eval/judge/gitdiff.go:307-317 | The backward loop keeps the prefix `TrimEnd` describes. |
| `Utf8Cut.CuttersAgree` | eval/judge/gitdiff.go:307-317 | On valid UTF-8 (sections 3 and 4 of RFC 3629) and every cut inside the text both cutters keep the same prefix: the longest whole-rune one, dropping at most 3 bytes. |
| `NonceExtract.MatchBrace` | eval/judge/nonceextract.go:104-137 | Reads at most its budget; finds the true closing brace if and only if that lies within the budget. |
| `NonceExtract.SpansAreDisjoint` | eval/judge/nonceextract.go:46-90 | Candidate spans are ordered, disjoint and never nested, each from an opening brace to its own close. |
| `NonceExtract.SpansAreComplete` | eval/judge/nonceextract.go:46-90 | Every opening brace with a close lies in some candidate span, so none is overlooked. |
| `NonceExtract.FindNonceObject` | eval/judge/nonceextract.go:46-90 | Reads at most the scan budget in all; reports exhaustion if and only if the scans run out before two reached objects conflict, with what was found until then; otherwise the outcome is that of the same scan without a budget. |
| `NonceExtract.RunningOutIsCostly` | eval/judge/nonceextract.go:46-90 | The scans run out only when their unbudgeted cost reaches the budget; the spans reached are a prefix of all spans, and all of them when nothing runs out. |
| `NonceExtract.EnoughIsNeverExhausted` | eval/judge/nonceextract.go:46-90 | A text whose scans cost less than the budget in all is never reported as exhausted. |
| `NonceExtract.SuccessMeansOneValue` | eval/judge/nonceextract.go:46-99 | An object is returned if and only if some candidate carries the nonce and all that do are equal as JSON values; the first is returned with both counts. |
| `JsonText.ObjectCloses` | eval/judge/nonceextract.go:104-137 | The scan from the opening brace of any printed JSON object closes at its own closing brace, whatever braces and escaped quotes its strings hold. |
| `JsonText.OneObjectIsFound` | eval/judge/nonceextract.go:46-90 | In a reply of prose around one object, that object is the only candidate and is found when it carries the nonce. |
| `DiffWriters.GitlinkScanner.Write` | eval/judge/gitdiff.go:236-254 | Any chunk moves the scanner as the whole-stream specification does. |
| `DiffWriters.GitlinkScanner.Check` | eval/judge/gitdiff.go:256-261 | Judges the pending line and clears it. |
| `DiffWriters.GitlinkScanner.Found` | eval/judge/gitdiff.go:263-268 | Reports a gitlink in the lines so far, the last one included. |
| `DiffWriters.FeedIgnoresChunking` | eval/judge/gitdiff.go:225-268 | Feeding a stream in any chunks ends in the state of feeding it whole. |
| `DiffWriters.FeedFindsGitlinks` | eval/judge/gitdiff.go:225-268 | Keeping 15 bytes a line is enough: the scan finds exactly the lines that carry mode 160000 on either side. |
| `DiffWriters.ScannerFindsGitlinks` | eval/judge/gitdiff.go:225-268 | For every split into Write calls the answer is the whole-line predicate on the concatenated stream. |
| `DiffWriters.GitlinkMeaning` | eval/judge/gitdiff.go:256-261 | On a raw diff line the two modes decide, and nothing else. |
| `DiffWriters.HeadWriter.Write` | eval/judge/gitdiff.go:283-303 | After any writes the head is the first limit bytes, the total is the stream length and the hash input is the stream. |
| `DiffWriters.CappedBuffer.Write` | eval/judge/gitdiff.go:270-281 | After any writes the buffer is the first limit bytes; every write reports its full length. |
| `Lakehouse.SafeSkipIffCovers` | eval/lakehouse/manifest.go:258-274 | Skipping by an entry is safe for every filter if and only if the entry agrees with the trace on every filtered field. |
| `Lakehouse.OwnEntryCovers` | eval/lakehouse/manifest.go:231-253 | A document's own entry covers it if and only if its two configurations agree on mode, model and provider type (always so for a trace). |
| `Lakehouse.CoherentScanIsExact` | eval/lakehouse/filestore.go:88-138 | An indexed scan over covering entries returns exactly what a full scan selects, in the same order. |
| `Lakehouse.ExactIffCoherent` | eval/lakehouse/filestore.go:88-193 | Indexed and full scan agree for every filter if and only if every entry covers its file. |
| `Lakehouse.FileStore.Store` | eval/lakehouse/filestore.go:54-77 | Refuses an empty ID or a failed write and changes nothing then; otherwise replaces the file and appends its entry, whatever becomes of the append. |
| `Lakehouse.FileStore.LoadManifestIndex` | eval/lakehouse/manifest.go:79-126 | Loads the last entry of each key, or nothing when the manifest is absent or any line is garbled. |
| `Lakehouse.FileStore.RebuildManifest` | eval/lakehouse/manifest.go:133-165 | Replaces the manifest with one line per listed readable file. |
| `Lakehouse.FileStore.ScanAndWrite` | eval/lakehouse/manifest.go:167-217 | Writes the lines of one kind of document, in listing order. |
| `Lakehouse.FileStore.Query` | eval/lakehouse/filestore.go:88-193 | Every document returned is listed, started inside the window and repeats each field asked for; the answer is newest first and within the limit. On a sound store it leaves out such a document only when the limit is used up by documents at least as new. The manifest is rebuilt only when it could not be loaded. |
| `Lakehouse.FileStore.Gather` | eval/lakehouse/filestore.go:103-127 | The loop over a listing collects the indexed scan. |
| `Lakehouse.ScanMeaning` | eval/lakehouse/filestore.go:266-286 | A plain scan selects exactly the listed documents that started strictly between the bounds and repeat each field asked for. |
| `Lakehouse.LaterStartKeepsNewer` | eval/lakehouse/filestore.go:266-271 | Raising the lower bound only removes documents, and each one removed is older than each one kept. |
| `Lakehouse.EarlierEndKeepsOlder` | eval/lakehouse/filestore.go:266-274 | Lowering the upper bound only removes documents, and each one removed is newer than each one kept. |
| `Lakehouse.RebuildLoads` | eval/lakehouse/manifest.go:133-217 | A rebuilt manifest loads and holds the entry of every listed document. |
| `Lakehouse.WrittenAppendLoads` | eval/lakehouse/manifest.go:54-73 | A whole append to a manifest that loads, or to none, keeps it loading, with the entry as the last for its key. |
| `Lakehouse.TornAppendSpoilsNext` | eval/lakehouse/manifest.go:79-126 | After an append that was cut short the next one joins its line, and the manifest no longer loads. |
| `Lakehouse.StoreKeepsSound` | eval/lakehouse/filestore.go:54-77 | From a sound store, a store operation leaves a sound store exactly when: the manifest no longer loads, or the append was lost and no stale entry contradicts the file, or it was not lost and the configurations agree. |
| `Lakehouse.LostOverwriteHidesTrace` | eval/lakehouse/manifest.go:54-73 | A concrete overwrite whose append is lost hides the trace from a filter that selects it. |
| `Lakehouse.DisagreeingRecordingIsHidden` | eval/lakehouse/manifest.go:243-253 | A concrete recording whose two configurations disagree is hidden from a filter that selects it. |
| `LakehouseRuns.SequentialRunIsSound` | eval/lakehouse/filestore.go:54-77 | Every sequential run of stores with effective appends, overwrites included, and of rebuilds from any listings ends in a sound store. |
| `LakehouseRuns.ActionKeepsInv` | eval/lakehouse/manifest.go:54-165 | Every single file-system step (write, append in full, cut short or lost, rebuild begun, drafted, committed or abandoned, query load, list, visit, return) keeps the interleaving invariant. |
| `LakehouseRuns.RunKeepsInv` | eval/lakehouse/manifest.go:54-165 | So does every interleaving of any length. |
| `LakehouseRuns.InterleavedQueryIsExact` | eval/lakehouse/filestore.go:88-193 | With write-once IDs and agreeing configurations, in every interleaving the answer of a query is the newest, up to its limit, of exactly what a full scan of its listing selects. |
| `LakehouseRuns.NoStoredDocumentIsMissed` | eval/lakehouse/filestore.go:88-193 | In every interleaving the answer holds only wanted documents of the listing, newest first and within the limit; a wanted document written before the listing is in it unless the limit is used up by documents at least as new. |
| `DiffParser.ReadBody` | eval/golden/diff.go:238-273 | The counted-line loop agrees with the recursive reading of a hunk body, errors included. |
| `DiffParser.ReadHunk` | eval/golden/diff.go:225-275 | A hunk is read as specified, with the index just after it. |
| `DiffParser.ReadHunks` | eval/golden/diff.go:166-173 | The hunk loop of a section reads hunks while lines look like headers outside bodies. |
| `DiffParser.ReadSection` | eval/golden/diff.go:146-178 | A section is read as specified, with the index just after it. |
| `DiffParser.ReadDiff` | eval/golden/diff.go:86-124 | The line-cursor loop over the whole text returns the specified sections or error. |
| `DiffPrinter.HeaderRoundTrip` | eval/golden/diff.go:225-296 | Any legal hunk header printed in decimal is read back. |
| `DiffPrinter.BodyRoundTrip` | eval/golden/diff.go:238-273 | Any legal body is read back whatever its lines look like, because the counts decide where it ends. |
| `DiffPrinter.HunksRoundTrip` | eval/golden/diff.go:146-178 | Any list of legal hunks is read back. |
| `DiffPrinter.SectionsRoundTrip` | eval/golden/diff.go:86-178 | Any list of legal sections is read back from its lines. |
| `DiffPrinter.PrintThenParse` | eval/golden/diff.go:86-124 | Printing any list of well-formed sections as text and splitting it returns those sections. |
| `DiffReconstruct.SideBuilder.Add` | eval/golden/diff.go:310-321 | Adds one line to content and count, paying for it from the shared budget. |
| `DiffReconstruct.SideBuilder.Pad` | eval/golden/diff.go:324-337 | Adds n empty lines, paying for each. |
| `DiffReconstruct.SideBuilder.Charge` | eval/golden/diff.go:339-344 | Takes from the shared budget and refuses below zero. |
| `DiffReconstruct.SideBuilder.File` | eval/golden/diff.go:346-355 | The text of a present side, without the last newline when so marked. |
| `DiffReconstruct.AddLine` | eval/golden/diff.go:388-414 | One body line goes to the sides its first byte names; a marker ends the side of the line before it. |
| `DiffReconstruct.AddLines` | eval/golden/diff.go:388-414 | The body loop agrees with the value-level reconstruction. |
| `DiffReconstruct.AddGap` | eval/golden/diff.go:363-387 | The gap before a hunk is padded equally on both sides, and a hunk that does not line up is refused. |
| `DiffReconstruct.Rebuild` | eval/golden/diff.go:359-417 | Two mutable sides sharing a budget compute the value-level reconstruction, errors and remaining budget included. |
| `DiffPatch.PatchOfLonger` | eval/golden/diff.go:359-417 | The reference patch tool is unaffected by what follows the last hunk. |
| `DiffPatch.ReconstructionIsPatch` | eval/golden/diff.go:359-417 | For every accepted section, applying the hunks to Before as a patch tool does yields After, and applying them in reverse to After yields Before: each hunk's lines sit at its starts and all other lines are equal. |
| `DiffPatch.MarksFallOnLastLine` | eval/golden/diff.go:359-417 | A no-newline marker anywhere in the hunks marks the last line of its side. |
| `DiffPatch.HunksArePaid` | eval/golden/diff.go:310-344 | Conservation: budget left plus bytes built is constant over any hunks. |
| `DiffPatch.ReconstructionIsPaid` | eval/golden/diff.go:359-417 | The bytes of both texts and the budget left never exceed the budget given. |
| `DiffMarks.HunksMark` | eval/golden/diff.go:388-414 | Over any hunks a side comes to lack its newline if and only if a marker follows one of its lines. |
| `DiffMarks.ReconstructionEndsAsMarked` | eval/golden/diff.go:359-417 | Each side of an accepted section is unterminated if and only if a marker marks it, and every such marker stands on its last line. |
| `DiffMarks.SectionsAreClean` | eval/golden/diff.go:86-124 | No line of a hunk that is read contains a newline. |
| `DiffMarks.TextDeterminesSide` | eval/golden/diff.go:346-355 | A text and its mark determine the lines of the side, so nothing about a reconstructed side is left open. |
| `DiffAcceptance.LinesOkIff` | eval/golden/diff.go:388-414 | The lines of a hunk are added exactly when no line of a side follows its marker and the bytes fit. |
| `DiffAcceptance.QuietMeaning` | eval/golden/diff.go:310-313 | No line follows a marker: nothing of the side is left after any marker, nor anything at all once it has ended. |
| `DiffAcceptance.HunksOkIff` | eval/golden/diff.go:362-415 | Hunks are applied exactly when they fit, and to the lines they show at their places. |
| `DiffAcceptance.ReconstructIff` | eval/golden/diff.go:359-417 | A section is reconstructed if and only if its hunks follow one another, start on the new side where the earlier ones put them, count lines only on present sides, mark only last lines and fit the budget, all said of header numbers and lines; and what it is reconstructed to, byte for byte. |
| `DiffForms.HeaderForms` | eval/golden/diff.go:225-237 | Any legal hunk header is read, with its counts of 1 left out or not, whatever follows it on the line. |
| `DiffForms.BodyForms` | eval/golden/diff.go:238-273 | A body is read with blank context lines stripped and markers in any words. |
| `DiffForms.PathMeaning` | eval/golden/diff.go:211-221 | A path is legal if and only if it has no backslash and no component is empty, a dot, two dots or git's directory in any case. |
| `DiffForms.SideMeaning` | eval/golden/diff.go:189-207 | A file line names /dev/null, or its prefix and a legal path up to a tab; anything else is refused. |
| `DiffForms.ExtendedIsSkipped` | eval/golden/diff.go:126-133 | Index and mode lines of a git header are passed over. |
| `DiffForms.BlankIsSkipped` | eval/golden/diff.go:86-124 | Blank lines between sections are passed over. |
| `DiffForms.UnsupportedIsRefused` | eval/golden/diff.go:135-142 | Renames, copies and binary changes are refused. |
| `DiffPatch.BodyIsCounted` | eval/golden/diff.go:238-273 | A body that is read holds exactly as many lines a side as the header counts say. |
| `DiffPatch.SectionsAreCounted` | eval/golden/diff.go:86-124 | So does every hunk of every section of a diff that is read. |
| `GoldenDiff.ParseDiff` | eval/golden/diff.go:44-83 | Accepts and refuses as specified, and returns the two trees of files. |
| `GoldenDiff.RebuildAll` | eval/golden/diff.go:52-78 | The loop over sections with one shared budget and a set of seen paths. |
| `GoldenDiff.FilesAreFaithful` | eval/golden/diff.go:52-78 | Every file rebuilt under the shared budget is a faithful two-sided patch whose sides end as its markers say, paths are distinct, and the bytes in all stay within the budget. |
| `GoldenDiff.AcceptedDiff` | eval/golden/diff.go:44-83 | All of this for every accepted text, with the total over all files within maxFixtureBytes. |
| `GoldenAcceptance.FilesOfIff` | eval/golden/diff.go:52-78 | The sections are rebuilt if and only if their paths are new and distinct, each is sound, and all fit the budget together; and to which files. |
| `GoldenAcceptance.AcceptedIff` | eval/golden/diff.go:44-83 | A text is accepted if and only if it splits into sections that are acceptable together: distinct paths, sound hunks, at most 8 MiB in all, and some file created, deleted or changed. |
| `GoldenAcceptance.PrintedIsAccepted` | eval/golden/diff.go:44-83 | A printed list of well-formed sections is accepted if and only if it is acceptable, and gives exactly those files. |
| `JudgeTree.CheckShadow` | types/eval.go:168-196 | The recursive check with its counter accepts exactly the trees the shadow rules allow. |
| `JudgeTree.RunJudge` | eval/judge/judge.go:85-113 | Evaluation of any judge agrees with the value-level semantics of status and workspace. |
| `JudgeTree.RunComposite` | eval/judge/judge.go:285-386 | A composite's status and state are those of the semantics, which `JudgeHearings.CompositeMeaning` pins for every cancellation. |
| `JudgeTree.RunSubs` | eval/judge/judge.go:306-350 | The loop updating decider, errored, cancelled and details computes the specified progress; a decider is an evaluated sub-judge. |
| `ShadowIsolation.ReadOnlyKeepsWorkspace` | eval/judge/judge.go:285-409 | A tree without test commands leaves the workspace unchanged. |
| `ShadowIsolation.StripKeepsValid` | eval/judge/judge.go:458-503 | Deleting every shadow subtree of an accepted tree leaves an accepted tree. |
| `ShadowIsolation.StripAgrees` | eval/judge/judge.go:285-422 | By simultaneous induction over the tree, with and without shadows status and workspace agree at every node. |
| `ShadowIsolation.ShadowsNeverDecide` | eval/judge/judge.go:285-422 | For every tree ValidateTree accepts and no cancellation, deleting all shadow subtrees changes neither the status, nor whether it passed, nor the final workspace. |
| `ShadowIsolation.ShortCircuitMeaning` | eval/judge/judge.go:285-386 | The short-circuit loop means what "all" and "any" say of the deciding sub-judges' verdicts, errors included. |
| `JudgeHearings.CompositeIsJudged` | eval/judge/judge.go:285-386 | For every context, cancelled at any points or never, status and final state follow from which deciding sub-judges gave a verdict and which were passed over. |
| `JudgeHearings.CompositeMeaning` | eval/judge/judge.go:309-378 | Under "all" a pass if and only if every deciding sub-judge was evaluated and passed; under "any" if and only if an evaluated one passed; an error when one was passed over for cancellation and none decided; a fail under "any" only when all were evaluated and failed. |
| `JudgeHearings.AllAreHeard` | eval/judge/judge.go:309-350 | Every deciding sub-judge is heard unless an earlier one ended the hearing. |
| `JudgeNodes.ShadowRulesEverywhere` | types/eval.go:168-196 | The shadow rules hold of a tree if and only if at every judge in it: no command at or beneath a shadow, the decision provider only as a shadow, some deciding sub-judge in every composite. |
| `JudgeNodes.ValidEverywhere` | eval/judge/judge.go:465-503 | A tree is valid if and only if every judge evaluation can reach is well formed. |
| `JudgeNodes.InvalidIsError` | eval/judge/judge.go:285-291 | An invalid composite is an error and runs nothing. |
| `JudgeNodes.UnrunnableIsError` | eval/judge/judge.go:96-113 | So is any other judge of an unknown kind or with unacceptable parameters. |
| `JudgeNodes.InspectionIsItsVerdict` | eval/judge/judge.go:96-113 | A judge that only looks gives its own verdict on the workspace it is shown. |
| `JudgeNodes.CommandsRunInOrder` | eval/judge/judge.go:285-386 | A composite of commands that must all pass is a script: each runs on what the one before left, up to the first that does not pass. |
| `TrialJobs.ListTrials` | eval/runner/runner.go:304-312 | The nested append loops list the rows of all trials of all tasks. |
| `TrialJobs.ListConfirmations` | eval/runner/runner.go:316-326 | Lists the later trials of exactly the tasks that need confirmation. |
| `TrialJobs.RowsCount` | eval/runner/runner.go:304-326 | Each scheduled (task, trial) is listed once, anything else not at all. |
| `TrialScheduler.ActionKeepsInv` | eval/runner/runner.go:339-370 | Every step of dispatcher, workers or cancellation keeps the invariant that ties writes, jobs in flight and jobs handed out. |
| `TrialScheduler.EveryRunIsSafe` | eval/runner/runner.go:339-370 | In every reachable state no slot is written more often than listed, every write done or possible next is in range, and at most the capped number of workers is in flight. |
| `TrialScheduler.InFlightMeaning` | eval/runner/runner.go:343-352 | The number in flight is the number of busy workers. |
| `TrialScheduler.WritesStayInRange` | eval/runner/runner.go:339-370 | Under the invariant the slot of every running job, and of the next job to be cancelled, exists. |
| `TrialScheduler.ReturnedRunIsComplete` | eval/runner/runner.go:339-370 | When the call returns, under any schedule and cancellation point, every listed slot was written exactly once and no other slot changed. |
| `TrialScheduler.RunsAreBounded` | eval/runner/runner.go:339-370 | No run is longer than a bound computed from its start, so it cannot go on for ever. |
| `TrialScheduler.NoDeadlock` | eval/runner/runner.go:339-370 | Until it returns, some step other than a cancellation is possible. |
| `TrialScheduler.Workers` | eval/runner/runner.go:340-352 | The pool is the largest number at most the jobs and at most max(concurrency, 1). |
| `TrialScheduler.NeverStuck` | eval/runner/runner.go:339-370 | From the start on, every state that has not returned can go on without a cancellation. |
| `TrialScheduler.EveryRunReturns` | eval/runner/runner.go:339-370 | No run from the start is longer than 4 times the jobs plus the workers plus 4, and one that cannot be continued has returned. |
| `TrialScheduler.CanReturn` | eval/runner/runner.go:339-370 | From every reached state some schedule without a further cancellation returns. |
| `TrialRounds.FixedRoundFillsAll` | eval/runner/runner.go:265-295 | The fixed policy's round leaves no slot unfilled, each written once. |
| `TrialRounds.TwoRoundsFillAll` | eval/runner/runner.go:265-295 | Across both confirm-on-fail rounds every slot is filled and written once in all, and the second round keeps the first trials. |
| `TrialRounds.FixedRows` | eval/runner/runner.go:265-295 | Without cancellation a fixed round holds the oracle's trials, under any schedule. |
| `TrialRounds.ConfirmedRows` | eval/runner/runner.go:265-333 | Without cancellation the two rounds hold the oracle's trials: all of them for a task to confirm, else the first. |
| `TrialRounds.PoliciesCompare` | eval/runner/runner.go:265-333 | Over whole runs of both policies on one oracle: same first-trial gate counts, same answer to "no gate pass", and pass fractions and suite rate at least as large under confirm-on-fail. |
| `TrialPolicy.GateCounts` | eval/eval.go:152-181 | The counting loop tallies a task's trials, or itself as the single one, with the health rule. |
| `TrialPolicy.TallyPasses` | eval/eval.go:152-181 | The pass count is positive if and only if some trial passes the gate, and full if and only if all do. |
| `TrialPolicy.TallyCounts` | eval/eval.go:152-218 | The counts are the numbers of trials with each gated outcome, and add up to the trials. |
| `TrialPolicy.GatedMeaning` | eval/eval.go:176-181 | A pass stays one unless health is required and not recorded as healthy; then it is a fail; other outcomes stay. |
| `TrialPolicy.MajorityMeaning` | eval/eval.go:226-247 | Pass when more than half of the trials passed, fail when more than half failed, otherwise error, a tie included; the fraction is passes over trials. |
| `TrialPolicy.DurationsAdd` | eval/runner/trials.go:79-98 | Durations add up over the trials. |
| `TrialPolicy.AggregateTrials` | eval/runner/trials.go:65-119 | One trial stands for itself; several give the majority outcome, the pass fraction, the summed duration, the worst health, the combined verification and the trial that speaks for them. |
| `TrialPolicy.Voice` | eval/runner/trials.go:152-155 | A strict majority speaks through its first trial; a split through none. |
| `TrialPolicy.SuitePassRate` | eval/runner/trials.go:158-167 | The mean of the pass fractions, zero for no tasks. |
| `TrialPolicy.ConfirmComparesWithFixed` | eval/runner/runner.go:331-333 | For one task's trials: same first-trial counts, same answer to "no gate pass", pass fractions at least as large under confirm-on-fail. |
| `TrialPolicy.ConfirmedSuiteRateIsNoSmaller` | eval/runner/trials.go:158-167 | Hence the suite rate is at least as large. |
| `PrintableText.CleanIsFixed` | eval/judge/diffreview.go:499-511 | Text without control characters or loose spacing survives the field join unchanged. |
| `PrintableText.ReasonRepeats` | eval/judge/diffreview.go:494-511 | Cleaning a cleaned reason changes nothing if and only if it is at most 2048 bytes, or exactly 2051. |
| `PrintableText.ReasonCanChange` | eval/judge/diffreview.go:494-511 | A concrete reason that changes when cleaned again. |
| `PrintableText.ReasonIsPrintable` | eval/judge/diffreview.go:499-511 | No reason holds a control character or white space other than single inner spaces. |
| `PrintableText.PlainReasonSurvives` | eval/judge/diffreview.go:499-511 | Visible ASCII between single spaces, of at most 2048 bytes, is unchanged. |
| `TextEncoding.EncodedIsRune` | eval/judge/diffreview.go:499-511 | Every character encodes as one of the productions of section 4 of RFC 3629. |
| `TextEncoding.EncodedIsValid` | eval/judge/diffreview.go:499-511 | An encoded text is valid UTF-8 of the length the model measures. |
| `TextEncoding.CutKeepsFit` | eval/judge/diffreview.go:499-511 | Cutting the encoded text at the limit and trimming a partial rune leaves the encoding of the longest prefix that fits. |
| `VerdictCache.Reviewer.Evaluate` | eval/judge/diffreview.go:84-90 | One evaluation takes store and counters to the specified state and returns the specified verdict. |
| `VerdictCache.Reviewer.ReviewDiff` | eval/judge/diffreview.go:92-205 | The mode-dependent control flow of lookup, call and store does what the specification says, step by step. |
| `VerdictCache.Reviewer.Call` | eval/judge/diffreview.go:172-205 | A model call stores a cacheable verdict when the mode writes, and records a failed write. |
| `VerdictCache.Reviewer.Count` | eval/judge/cache.go:216-230 | Each record-carrying verdict moves one counter. |
| `VerdictCache.ReviewStores` | eval/judge/diffreview.go:172-205 | One evaluation: when the model is called, that its answer is stored exactly when the mode is recording or read-through and the write succeeds, that the entry is the verdict returned, and that a call returns the model's own answer. |
| `VerdictCache.StoreIsLastStored` | eval/judge/diffreview.go:84-205 | After any number of evaluations the store holds, for each key, what the last evaluation to store it returned. |
| `VerdictCache.StoredEntriesAreGenuine` | eval/judge/cache.go:138-171 | After any run from an empty cache a key has an entry if and only if some evaluation stored one; the entry is the verdict the last of them returned, and that is the answer (decision, cleaned reason, model) the model gave for that configuration, input and sample. |
| `VerdictCache.StoredEntryIsServed` | eval/judge/cache.go:177-204 | A later reading evaluation serves the stored status, pass flag and cleaned reason, and only counts a hit. |
| `VerdictCache.OnlyUsableIsServed` | eval/judge/cache.go:161-171 | Whatever is stored, only a consistent, conforming pass or fail for this configuration and input is served, and every verdict passes exactly when its status does. |
| `VerdictCache.ServedReason` | eval/judge/diffreview.go:494-511 | The served reason is the stored one if and only if that is at most 2048 bytes, or exactly 2051. |
| `VerdictCache.ReplayStrictOnlyReads` | eval/judge/diffreview.go:84-205 | A replay-strict evaluation makes no call and no write, whatever the model would reply; it serves the entry's decision and cleaned reason, and is an error if and only if it fails early or has no usable entry. |
| `VerdictCache.ReplayStrictRunOnlyReads` | eval/judge/diffreview.go:84-205 | A replay-strict stretch of a run, of any length, leaves store and call count unchanged. |
| `VerdictCache.RecordThenReplay` | eval/judge/diffreview.go:84-205 | In any run that is replay-strict from some point on, each later verdict is an error exactly when it fails early, its read fails or nothing was stored for its key; otherwise it has the Passed and Status of the evaluation that last stored the key, with the same Reason if and only if that is at most 2048 bytes or exactly 2051, and that evaluation returned the model's answer. |
| `VerdictCache.StoreByMode` | eval/judge/cache.go:56-61 | Live and replay-strict never change the store; recording, and read-through that was not served, leave the answer under its key. |
| `VerdictCache.StoredIffKept` | eval/judge/diffreview.go:178-204 | A key has an entry if and only if some request for it was recording or read-through, answered and written. |
| `VerdictCache.RecordedStays` | eval/judge/diffreview.go:178-204 | A recorded answer stays until a later recording, or a read-through whose read fails, replaces it. |
| `VerdictCache.RecordedIsReplayed` | eval/judge/diffreview.go:84-205 | Over the requests alone: a replay is an error exactly when it fails early, cannot read or nothing was kept for its key; otherwise it has the decision of the last recorded answer, and its reason exactly when that survives cleaning. |
| `VerdictCache.ReviewCounts` | eval/judge/cache.go:209-273 | What one evaluation may add to the counters. |
| `VerdictCache.CountersByRequest` | eval/judge/cache.go:216-256 | Which counters an evaluation moves, by what the request and the store are like. |
| `VerdictCache.SummaryIsConserved` | eval/judge/cache.go:259-273 | Over every run hits + misses + bypassed is the number of record-carrying verdicts, replaced <= misses, and stored + writeErrors <= misses. |
| `SignFlip.SignFlipPValue` | eval/reporter/stats.go:93-134 | Up to 20 non-zero differences the result is the share of sign assignments whose absolute sum reaches the observed one; above that it is the normal approximation at the squared sum over the sum of squares. |
| `SignFlip.Collect` | eval/reporter/stats.go:94-103 | The first loop drops zeros and gathers magnitudes, sum and scale. |
| `SignFlip.CountHits` | eval/reporter/stats.go:110-125 | The enumeration by bit mask counts every sign assignment once. |
| `SignFlip.SignedSum` | eval/reporter/stats.go:113-120 | Bit i of the mask decides the sign of the i-th magnitude. |
| `SignFlip.AddSquares` | eval/reporter/stats.go:128-131 | The loop of the approximation sums the squares. |
| `SignFlip.MasksAreAssignments` | eval/reporter/stats.go:110-125 | Masks below 2^m correspond to the sign assignments, for every target. |
| `SignFlip.HitsAreEven` | eval/reporter/stats.go:107-125 | With a non-zero difference the hits are even in number, at least 2 and at most 2^m. |
| `SignFlip.TestValueRange` | eval/reporter/stats.go:109-126 | So the p-value lies in [2/2^m, 1]. |
| `SignFlip.TestValueIsShare` | eval/reporter/stats.go:89-126 | The p-value is the share, among all written-out lists of signs, of those whose absolute sum reaches the observed one. |
| `SignFlip.NoDifferenceIsOne` | eval/reporter/stats.go:104-106 | Without a non-zero difference the p-value is 1. |
| `SignFlip.PermutingIsIrrelevant` | eval/reporter/stats.go:93-126 | Reordering the differences keeps the exact p-value and the argument of the approximation. |
| `SignFlip.OrderAndZerosAreIrrelevant` | eval/reporter/stats.go:93-126 | So does adding or removing zeros, in any order. |
| `SignFlip.NegatingIsIrrelevant` | eval/reporter/stats.go:93-126 | So does negating every difference. |
| `PassAtK.BinomialRatio` | eval/reporter/stats.go:232-244 | Not a number exactly outside 0 <= k <= n; inside, the incremental product is C(a,k)/C(n,k), and 0 for a negative a. |
| `PassAtK.PassHatK` | eval/reporter/stats.go:248-250 | C(c,k)/C(n,k) on all inputs where it is defined. |
| `PassAtK.PassAtK` | eval/reporter/stats.go:255-257 | 1 - C(n-c,k)/C(n,k) on all inputs where it is defined. |
| `PassAtK.ChooseNext` | eval/reporter/stats.go:240-243 | The step of the product, without division: C(a,k+1)(k+1) = C(a,k)(a-k). |
| `PassAtK.EstimatesBracketPassRate` | eval/reporter/stats.go:246-257 | For 0 <= c <= n and 1 <= k <= n: pass^k <= c/n <= pass@k, all within [0, 1]. |
| `PassAtK.EstimatesAreMonotone` | eval/reporter/stats.go:246-257 | pass^k is non-increasing and pass@k non-decreasing in k. |
| `PassAtK.EstimatesCountPicks` | eval/reporter/stats.go:246-257 | pass^k is the share of the k-trial picks that pass throughout, and pass@k the share of those with at least one pass. |
| `PassCurves.Gather` | eval/reporter/reporter.go:287-300 | The loop collects the tasks' counts and the smallest trial count, which is never zero. |
| `PassCurves.SumEstimates` | eval/reporter/reporter.go:318-326 | The inner loop sums both estimates over the tasks for one k. |
| `PassCurves.Curves` | eval/reporter/reporter.go:280-328 | The reported curves are the means of the tasks' estimates for k = 1 up to the smallest trial count, and no entry is ever NaN. |
| `PassCurves.CurvesBracketRate` | eval/reporter/reporter.go:318-326 | Both curves start at the mean pass fraction; pass^k never rises, pass@k never falls, and both stay in [0, 1]. |
| `PassCurves.CurvesStartAtPassRate` | eval/reporter/reporter.go:280-328 | Over all trials that start is the pass rate the comparison reports. |
| `Comparison.IndexByTaskID` | eval/reporter/reporter.go:369-375 | The index holds each ID's last task. |
| `Comparison.UnpairedIDs` | eval/reporter/reporter.go:358-367 | Exactly the IDs missing from the other side, sorted and once each. |
| `SortedStrings.SortedHasNoRepeats` | eval/reporter/reporter.go:365-366 | A list sorted and compacted repeats nothing. |
| `SortedStrings.SortCompactSorts` | eval/reporter/reporter.go:365-366 | Sorting and compacting any list gives a strictly sorted one, with the same members. |
| `Comparison.Account` | eval/reporter/reporter.go:89-138 | One paired task extends the pairs, differences, flips, regressions and improvements as their definitions over all rows demand. |
| `Comparison.MeanOfFractions` | eval/reporter/reporter.go:287-302 | The mean gate pass fraction of a side, zero for no tasks. |
| `Comparison.Compare` | eval/reporter/reporter.go:65-188 | The loop over the current tasks builds the specified report. |
| `Comparison.FloorGate` | eval/reporter/reporter.go:244-258 | The resulting severity is the larger of the two. |
| `Comparison.GateMeaning` | eval/reporter/reporter.go:203-258 | When each gate is given, as if-and-only-ifs over flips, regressions, missing tasks, 3 paired tasks and the interval. |
| `Comparison.GateReasons` | eval/reporter/reporter.go:203-258 | Every gate but a pass gives reasons, and which. |
| `ComparisonLaws.TasksArePartitioned` | eval/reporter/reporter.go:65-188 | For all suites, pairs with BaselineOnly and pairs with CurrentOnly partition the two sides' IDs. |
| `ComparisonLaws.PairsAreDistinct` | eval/reporter/reporter.go:83-99 | With distinct current IDs no pair repeats. |
| `ComparisonLaws.RowsAreMatches` | eval/reporter/reporter.go:83-88 | With distinct baseline IDs the pairs are exactly the tasks that share an ID. |
| `ComparisonLaws.FlipMeaning` | eval/reporter/reporter.go:109-116 | A deterministic flip: every baseline trial passes the gate and no current one does. |
| `ComparisonLaws.SignsMeanProgress` | eval/reporter/reporter.go:92-105 | A positive delta or difference means that the current side passes more often, counted in trials, and a negative one less often; turns likewise. |
| `ComparisonLaws.StatIsTrials` | eval/reporter/reporter.go:101-107 | The statistics count all trials, or the first alone, and never none. |
| `ComparisonLaws.RegressionMeaning` | eval/reporter/reporter.go:118-128 | A listed regression: all baseline trials pass the gate and at most the threshold plus 1e-9 of the current ones do. |
| `ComparisonLaws.FirstTrialOnlyMeaning` | eval/reporter/reporter.go:69-70 | First trials alone are used if and only if exactly one side ran confirm-on-fail. |
| `ComparisonLaws.OptionBounds` | eval/reporter/reporter.go:44-52 | Which margins and thresholds are legal. |
| `ComparisonLaws.FlipsAreRegressions` | eval/reporter/reporter.go:109-128 | Under valid options every deterministic flip is a listed regression, from fraction 1 to 0. |
| `ComparisonLaws.PassGateIsClean` | eval/reporter/reporter.go:203-241 | A pass gate implies no flip, regression or missing task; every task that passed in full still passes more than the flip threshold. |
| `ComparisonLaws.SwapMirrorsPairs` | eval/reporter/reporter.go:65-188 | With distinct IDs, swapping the sides mirrors the pairs and the one-sided lists and negates every delta, difference and the rate delta. |
| `ComparisonLaws.SwapMirrorsChanges` | eval/reporter/reporter.go:118-138 | Swapping the sides swaps regressions with improvements if and only if the flip threshold plus epsilon is below 1 or no task passed in full on both sides. |
| `ComparisonLaws.ThresholdNearOne` | eval/reporter/reporter.go:44-52 | A concrete valid threshold for which the swap fails. |
| `ComparisonPolicy.PolicyKeepsFlips` | eval/reporter/reporter.go:101-128 | Against any baseline, the report on the confirm-on-fail run of the current side has the flips, pairs and missing tasks of the report on the fixed run, no new regression and no lower delta; its first-trial differences are those of the fixed run. |
| `ConfigFields.Walker.Collect` | types/runconfig_fields.go:53-77 | Adds exactly the paths of the infinite unfolding along which no struct type is entered more than twice, counting the current descent, and restores `active`; it terminates on every graph whose recursion passes through structs. |
| `ConfigFields.Walker.CollectStruct` | types/runconfig_fields.go:67-76 | The struct case: one entry more while its fields are walked, undone on exit. |
| `ConfigFields.Walker.CollectField` | types/runconfig_fields.go:79-104 | Tags, embedding, export and naming of one field, with the paths beneath it. |
| `ConfigFields.NameIsBeforeComma` | types/runconfig_fields.go:84-84 | The name is the longest beginning of the tag without a comma. |
| `ConfigFields.FieldRules` | types/runconfig_fields.go:79-104 | The naming rules of encoding/json as what is found: tags "-", unexported fields, tag and Go names, embedded structs. |
| `ConfigFields.Walker.Deref` | types/runconfig_fields.go:54-56 | The pointer loop ends and changes nothing that is found. |
| `ConfigFields.ConfigFieldPaths` | types/runconfig_fields.go:16-25 | The sorted list without repeats of exactly the bounded unfolding's paths. |
| `ConfigFields.DepthFalls` | types/runconfig_fields.go:54-66 | Pointers, slices and maps lower the distance to the next struct or leaf. |
| `ConfigFields.RoomFalls` | types/runconfig_fields.go:68-72 | Entering a struct lowers the entries left in all by one: the outer measure of termination. |
| `ConfigFields.StructFinds` | types/runconfig_fields.go:67-76 | What a struct contributes to the bounded unfolding, both ways. |
| `ConfigFields.ParentsAreListed` | types/runconfig_fields.go:79-104 | Every name given on the way to a listed path is listed. |
| `ConfigFields.SelfContainingType` | types/runconfig_fields.go:33-42 | A type that contains itself lists its own field at the first and second level, and no route goes on beneath the second. |

## Left out

- Run configuration validation and redaction (types/runconfig.go): independent checks, each settled by one branch.
- HTTP judge clients, endpoint checks, secret resolution: network and credentials.
- Git subprocesses, baseline bundles, file ownership and permissions: foreign calls. The file cache is its keyed-store view.
- Student's t quantiles, the paired interval and the normal approximation of the sign-flip test: transcendental numerics. The comparison takes the paired statistics as a parameter.
- HCL decoding, JUnit and text output, calibration reports, CLI commands, fixture servers: presentation.
- Error and reason texts, and the nested details of composite verdicts beyond status, skipping and shadow marking.
- FileStore.Metrics and percentiles: local arithmetic over a query's result.
- SignFlip.SignFlipPValue: does not evaluate the complementary error function above 20 non-zero differences; it gives the argument.
- Comparison.Compare: does not give the noise floor, Wilson intervals and standard errors of the report, which are formulas over the modelled counts.
- ShadowIsolation.ShadowsNeverDecide: does not cover a cancelled evaluation, because a shadow's running time can then decide which sub-judge sees the cancellation.
- PrintableText: does not model invalid UTF-8 in a model's reason.
