# MunichBrief: a verified model of the stateful core

MunichBrief collects police press reports, lets language models prepare them step by step, and
publishes the result to readers. Almost everything it must get right is state in SQLite tables that
one worker, a scheduler and operators change concurrently, plus a few self-contained algorithms. This
project models that core in Dafny and proves what it promises.

SQL tables are maps held by a class, one method per transaction. Every method runs the statements of its
transaction in their order and is proved equal to a function on table values (`*Tables.dfy`). What each
transaction does is also stated row by row, with predicates that use none of those functions (`*Effects.dfy`,
`PipelineRequests`, `ReaderRows`), and promised by the methods. The properties over whole runs are proved
about the functions (`*System.dfy`). An early return before the commit stands for the rollback. Algorithms
with loops are methods with loops, proved against declarative specifications.

| files | subject |
|---|---|
| `Rows`, `Text` | `ORDER BY ... LIMIT 1` and blank text |
| `PipelineTables`, `PipelineStore`, `PipelineEffects`, `PipelineRequests`, `PipelineInvariant`, `PipelineSystem`, `PipelineOutcomes`, `PipelineProgress` | the staged AI pipeline: transactions, their effects row by row, their invariant, every interleaving of one worker with operators, what runs leave behind and how work moves on |
| `PostProcessingTables`, `PostProcessingStore`, `PostProcessingEffects`, `PostProcessingSystem`, `PostProcessingOutcomes`, `TranslationBatch` | the post-processing queue, its claim and peek loops, and batching by model |
| `Presentation`, `ReaderProjection`, `ReaderRows`, `ReaderIndex` | the reader view, what its columns mean, and the table that triggers keep equal to it |
| `PlaceTokens`, `PlaceProtection`, `PlaceRoundTrip`, `PlaceHiding`, `PlaceMatcher` | protecting and restoring place names around a translation |
| `Reports` | report identity and reordering rows under a uniqueness constraint |
| `MapDistance`, `MapSimplify`, `MapRings`, `MapOutline`, `MapLabel` | the map generator's geometry, over exact reals: what simplified rings keep of the original ones |
| `MapTies`, `MapBorders`, `MapIslands`, `MapPockets`, `MapTieExamples` | borders that two rings share: when both rings simplify them alike, and when they do not |
| `LocationCatalog`, `LocationEvidence`, `LocationResolve`, `LocationPlaces`, `LocationOrder`, `LocationDistricts`, `LocationGroups` | containment of places, grounding of mentions, the proposed area and the order of mentions, district groups |
| `ClockMatching` | equivalent times in a report and its translation |
| `ContactTables`, `ContactStore`, `ContactEffects`, `ContactSystem`, `ContactQuota`, `ContactMessages` | contact messages and their notification quota |
| `GazetteerTables`, `GazetteerStore`, `GazetteerEffects`, `GazetteerSystem` | gazetteer generations and refresh history |
| `ReaderTrend`, `ReaderTrendExact`, `ReaderStats` | publication statistics |

Findings: some properties do not hold of the code without a condition. Each has a proved counterexample, and the
condition is exact where it says so:

- The publication trend mistakes the first day of year one for "no day yet". It is right in every iteration order
  exactly if that day is missing, alone, between other days, or all days are in its week (`ReaderTrendExact`).
- Restoring protected names fails exactly when a name touches an underscore or another name, or when there are more
  than 9999 names (`PlaceRoundTrip.RoundTrip`).
- Two rings show a shared border as exact reverses whenever it ends at another junction than it starts from. A
  border that comes back to its junction does so exactly if its ties are harmless; rings with fewer than two junctions
  do so if their farthest point is unique. `MapTieExamples` has rings for which both fail.
- The contact quota holds for all runs of a clock exactly if no purge drops a month between two claim attempts in that
  month; a clock set back can do that (`ContactQuota`).
- The proposed area is independent of the order of the mentions exactly if no two places that can be mentioned lie
  within each other (`LocationOrder`).
- A name is found in every text where it stands as a word exactly if it does not overlap itself at a word boundary
  (`LocationEvidence.SearchIsCompleteExactly`).
- Peek and claim agree unless a candidate with an empty contract comes first, which makes the claim refuse while peek
  passes over it (`PostProcessingSystem.PeekAgreesWithClaim`).

## Model

| member | source | states |
|---|---|---|
| PipelineSystem.StepKeepsSysInv | internal/processing/pipeline_worker.go:815-940 | every worker, operator and process step keeps the joint invariant of tables and worker position, and undoes nothing settled |
| PipelineSystem.EveryInterleavingIsDisciplined | internal/store/pipeline_cycles.go:80-166 | in every reachable interleaving at most one cycle and one step job run, and every job is in its place relative to the active step, its item and its cycle |
| PipelineSystem.PublishedMeansEveryStepSucceeded | internal/store/pipeline_jobs.go:144-163 | a presentation run is complete exactly if every step job of its item succeeded |
| PipelineSystem.StepsRunInOrder | internal/store/pipeline_cycles.go:247-326 | a step is pending, running or succeeded only after all steps before it succeeded |
| PipelineSystem.SettledWorkStaysSettled | internal/store/pipeline_jobs.go:124-187 | whatever happens later, complete runs stay complete, terminal jobs and cycles keep their row and no row disappears |
| PipelineSystem.CancelSettlesEverything | internal/store/ai_control.go:72-113 | after cancelling every job, item, run and cycle is terminal, automatic work is off, nothing was published, unpublished or lost, and no job or cycle is ever taken up again |
| PipelineSystem.LateResultChangesNothing | internal/store/pipeline_jobs.go:124-187 | after a cancellation the in-flight call's late result and late failure are refused and leave every table unchanged |
| PipelineSystem.UncancelledResultIsRecorded | internal/store/pipeline_jobs.go:122-168 | conversely, the result of a call that was not cancelled is stored exactly if it has no blank field |
| PipelineSystem.YieldConservesWork | internal/store/pipeline_cycles.go:191-243 | yielding moves exactly the pending items to one continuation with the same step, models and plans; items, jobs, runs and values are conserved |
| PipelineSystem.RequestTakesOverQueuedWork | internal/store/pipeline_cycles.go:364-397 | after a manual request no queued automatic cycle keeps an item for a requested text |
| PipelineSystem.QueuedRequestsGoFirst | internal/store/pipeline_cycles.go:80-166 | while a manual request is queued, activation starts no automatic cycle |
| PipelineSystem.ClaimTakesTheLatestCurrentReport | internal/store/pipeline_jobs.go:30-112 | a claimed job is due, for the text its incident has now, under switches that are on, and for the latest such report |
| PipelineOutcomes.ResultsStayWithTheirReport | internal/store/pipeline_jobs.go:122-168 | a result fills exactly its fields of its own report's presentation and changes no other report's |
| PipelineOutcomes.FinishedCycleAccounts | internal/store/pipeline_cycles.go:280-326 | a finished cycle has decided every item, succeeded exactly if all its steps did, and failed itself exactly if an item failed |
| PipelineOutcomes.FinishedRequestTakesOver | internal/store/pipeline_cycles.go:524-554 | when a manual cycle finishes, no unfinished automatic cycle still has a text to do that it succeeded on |
| PipelineOutcomes.RequestCoversItsTargets | internal/store/pipeline_cycles.go:399-489 | a request makes exactly one pending item, at the report's current text, for exactly the reports it selects: the named one, all, or those without a presentation of their text |
| PipelineOutcomes.NewReportsAreScheduled | internal/store/pipeline_cycles.go:126-166 | with nothing queued or running, activation starts a cycle exactly if a report with a body came in after the cutover without a presented or failed run of its text, and the cycle has one pending item for exactly these reports |
| PipelineOutcomes.RepeatedRequestIsCoalesced | internal/store/pipeline_cycles.go:15-78 | repeating a queued request changes nothing and is answered with the queued cycle and its size |
| PipelineOutcomes.InterruptedJobIsClaimable | internal/store/pipeline_cycles.go:169-178 | after a crash in mid-call and a restart the interrupted job can be claimed at once and nothing else changed |
| PipelineOutcomes.AnEmptyClaimNeverStalls | internal/processing/pipeline_worker.go:836-898 | if a claim finds nothing for a cycle that may run, the cycle moves on or only waits for retries that are not due |
| PipelineProgress.StageOpensExactly | internal/store/pipeline_cycles.go:280-297 | advancing opens the next step for exactly the items that succeeded at every step before it, skips it for the others, superseded ones staying so, and changes no other job |
| PipelineProgress.FailureDecidesReturn | internal/store/pipeline_jobs.go:170-188 | a failed job can be claimed again exactly if its failure allows a retry that is due, its cycle may run and its text is current |
| PipelineProgress.FinalFailureStays | internal/store/pipeline_jobs.go:170-188 | a failure without retry is final, whatever is done afterwards |
| PipelineProgress.ReplacedTextIsDropped | internal/store/pipeline_jobs.go:30-48 | after a claim no item of the cycle has anything left to do for a replaced text, now or later; other jobs are unchanged but for the claimed one |
| PipelineProgress.SuspendedCycleIsResumed | internal/store/ai_control.go:59-68 | suspending and activating again restores the state exactly if the switches are on and no queued cycle goes first |
| PipelineProgress.YieldedWorkIsClaimable | internal/store/pipeline_cycles.go:191-243 | once its continuation runs, exactly the jobs can be claimed that could be claimed of the cycle before it yielded, at the same step and at every moment |
| PipelineStore.Store.constructor | internal/store/ai_control.go:33-57 | a new store has empty tables and both switches on |
| PipelineEffects.ClaimIs | internal/store/pipeline_jobs.go:23-112 | a claim drops exactly the items of replaced texts and starts the permitted due job of the latest published report, one attempt more; every other row stays |
| PipelineEffects.CompletionIs | internal/store/pipeline_jobs.go:122-168 | a result is refused exactly if the job is not running or a value is blank; otherwise exactly its values are stored, its job ends and after the last job item and run are published; every other row stays |
| PipelineEffects.AdvanceIs | internal/store/pipeline_cycles.go:247-326 | a step with open jobs blocks and says whether it only waits for retries; otherwise the next step opens where this one succeeded, or the last step decides every item, run and the cycle |
| PipelineEffects.RequestTakeoverIs | internal/store/pipeline_cycles.go:364-397 | a new request supersedes every item of queued automatic cycles for its texts, their unclaimed jobs and runs, and exactly the cycles left with superseded items only; every other row stays |
| PipelineRequests.CreatedIs | internal/store/pipeline_cycles.go:399-489 | a new cycle has its rows under fresh IDs in order of publication: per report an item and a run for its text, and one job per step with the model of that step, the first pending; every other row stays |
| PipelineRequests.RequestIs | internal/store/pipeline_cycles.go:15-78 | a request is answered with the queued one for the same reports, texts, models and plans; refused if there is no report for it; otherwise its cycle is created and takes over queued texts |
| PipelineRequests.ActivationIs | internal/store/pipeline_cycles.go:80-166 | nothing while processing is off; a running cycle continues unless it is automatic and automatic work is off; then the first queued cycle that may run starts, requests and older ones first, and without one a schedule of the due reports |
| PipelineStore.Store.CompletePipelineJob | internal/store/pipeline_jobs.go:122-168 | storing values in any order, rejecting blanks and publishing has exactly the effect that `CompletionIs` states; a refusal rolls everything back |
| PipelineStore.Store.InsertJobs | internal/store/pipeline_cycles.go:476-486 | the insert loop adds exactly one job per step |
| PipelineStore.Store.InsertTarget | internal/store/pipeline_cycles.go:455-487 | one round adds a run, an item and its jobs under fresh IDs |
| PipelineStore.Store.CreateCycle | internal/store/pipeline_cycles.go:399-489 | the insert loops equal the closed form of the new rows |
| PipelineStore.Store.CreateManualPipelineCycle | internal/store/pipeline_cycles.go:15-78 | coalesced, created, nothing to do or not found exactly as `RequestIs` states of the rows |
| PipelineStore.Store.ActivateNextPipelineCycle | internal/store/pipeline_cycles.go:80-166 | the activation that `ActivationIs` states of the rows: which cycle continues, is suspended or starts, and which reports a schedule takes |
| PostProcessingStore.Store.PeekPostProcessingJob | internal/store/post_processing.go:859-888 | the read-only walk returns the first runnable candidate, or none exactly if there is none |
| PostProcessingStore.Store.SettleUntilStop | internal/store/post_processing.go:644-698 | the retrying loop terminates and settles exactly the candidates before the first that ends it |
| PostProcessingStore.Store.ClaimPostProcessingJob | internal/store/post_processing.go:621-712 | the claim takes the first candidate that can run after failing or skipping those before it; a malformed contract rolls back |
| PostProcessingStore.Store.CompletePostProcessingJob | internal/store/post_processing.go:714-807 | a result is stored exactly if its kinds are the declared ones, each with text, and the inputs are still those claimed: every kind then has its own value and the job its model and inputs; outdated location checks end as superseded; no other row changes |
| PostProcessingEffects.CompletionIs | internal/store/post_processing.go:714-807 | the same said of every output row and every job, in both directions |
| PostProcessingEffects.QueuedIs | internal/store/post_processing.go:434-486 | an improper plan or a replaced text is refused; otherwise exactly the pending jobs of older runs for that scope end, and a job is added unless one is enough, with the current inputs, skipped with the first missing one |
| PostProcessingEffects.ClaimIs | internal/store/post_processing.go:599-712 | the claimed job is the first in the order of kind, model to yield, preferred model, scope, age and ID that may be claimed and can run; what every other job becomes; a refusal changes nothing |
| PostProcessingEffects.PeekIs | internal/store/post_processing.go:859-923 | peek answers with the first job in that order that can run |
| PostProcessingSystem.PeekAgreesWithClaim | internal/store/post_processing.go:859-923 | peek returns exactly the job the mutating claim takes, or none for both, unless the claim refuses; it refuses exactly if a malformed contract comes first |
| PostProcessingSystem.ValidContractsAlwaysAgree | internal/store/post_processing.go:621-712 | with well-formed contracts peek and claim always agree |
| PostProcessingSystem.ClaimTouchesPendingOnly | internal/store/post_processing.go:621-712 | a claim attempts one pending due job once more; every other job is unchanged or was pending and became terminal |
| PostProcessingSystem.AtMostOneActiveJob | internal/store/post_processing.go:434-486 | in every reachable state a run has at most one open job per processor and scope |
| PostProcessingSystem.ContentFailuresAreBounded | internal/processing/pipeline_worker.go:1120-1155 | no job sees more than three content failures and the third ends it |
| PostProcessingSystem.DiscoveryNeverResetsTheBudget | internal/store/post_processing.go:434-486 | once a job for some inputs needs review or failed, automatic discovery never adds one for those inputs |
| PostProcessingSystem.CancelledCallsEndSilently | internal/store/ai_control.go:72-113 | after cancelling no job is open, and the late end of a cancelled call changes no table |
| PostProcessingOutcomes.ClaimDropsExactly | internal/store/post_processing.go:599-698 | a claim ends exactly the pending jobs that are out of date or switched off and those before the claimed one that cannot run |
| PostProcessingOutcomes.RepeatedRequestAddsNothing | internal/store/post_processing.go:434-486 | a request repeated without force adds and changes nothing, whatever the first one found |
| PostProcessingOutcomes.FailureDecidesReturn | internal/processing/pipeline_worker.go:1120-1155 | a failed job can be claimed again exactly if it may run, its retry is due and it was no content error at the third attempt, which is final in every continuation |
| PostProcessingOutcomes.InterruptedJobReturns | internal/store/post_processing.go:830-835 | after a restart an interrupted job can be claimed at once exactly if it may run, and the next claim is not empty if its inputs are there |
| TranslationBatch.Worker.RecordTranslationClaim | internal/processing/translation_batch.go:101-124 | the batch after a claim: model, scope and a count that stops at fifty |
| TranslationBatch.Worker.RecordModelInvocation | internal/processing/translation_batch.go:126-138 | another model ends the batch; a cancelled call changes nothing |
| TranslationBatch.Worker.Drain | internal/processing/translation_batch.go:85-138 | draining a queue by real claims takes every eligible job of one kind once and forms at most the sum over the models of ceil(n/50) batches |
| TranslationBatch.ClaimTakesFirst | internal/store/post_processing.go:621-712 | with the batch's hints a claim takes the first eligible job in the order of the hints and leaves exactly the others eligible |
| TranslationBatch.SpentModelYields | internal/store/post_processing.go:890-923 | a model with fifty attempts is not chosen while another model has a candidate of the top kind |
| TranslationBatch.OpenBatchContinues | internal/store/post_processing.go:890-923 | an unfinished batch is continued, jobs of its scope first |
| TranslationBatch.LastModelComesFirst | internal/store/post_processing.go:890-923 | without a batch the model invoked last goes first among the candidates of the top kind |
| TranslationBatch.ClaimLowersPotential | internal/processing/translation_batch.go:91-124 | each claim lowers the number of batches to come by at least what it opens |
| Presentation.LatestRun | internal/store/presentation.go:121-126 | none exactly if no complete current run for the text exists; every other such run ended before the selected one: without or with an earlier completion time, or the same and a smaller ID |
| ReaderProjection.LatestJob | internal/store/presentation.go:130-140 | the same of the succeeded jobs of a run, processor and scope with every needed output: none exactly if there is no such job, otherwise every other one ended before the selected one |
| ReaderRows.RowsAreExact | internal/store/reader.go:93-169 | an incident has a row exactly if it is published with text in that language, and every column of the row is the verified, translated or original value of the last completed run it stands for |
| ReaderProjection.SameViewSameRows | internal/store/reader.go:155-169 | an incident's rows of the view depend only on its listed inputs |
| ReaderIndex.Frame | internal/store/reader.go:174-233 | a row change that skips an incident, by WHEN clause, column list or table, cannot alter what its rows are computed from |
| ReaderIndex.TriggerKeepsSync | internal/store/reader.go:171-233 | after any row change and its trigger the table equals the view |
| ReaderIndex.EveryChangeKeepsSync | internal/store/reader.go:140-235 | the same after every row of every sequence of changes on the six base tables |
| ReaderIndex.SyncIsUnique | internal/store/reader.go:239-293 | there is only one table content that equals the view |
| ReaderIndex.BackfillSyncs | internal/store/reader.go:289-292 | rebuilding makes the table equal the view whatever was there |
| ReaderIndex.Index.ChangeRow | internal/store/reader.go:171-233 | a row change with its trigger keeps table and view equal |
| ReaderIndex.Index.Install | internal/store/reader.go:239-293 | installation rebuilds the index |
| PlaceRoundTrip.RoundTrip | internal/gazetteer/matcher.go:99-226 | protecting then restoring gives back the source exactly if there are at most 9999 names and none touches an underscore or another name; otherwise it is refused |
| PlaceRoundTrip.TranslationIsSubstituted | internal/gazetteer/matcher.go:190-226 | a translation that is accepted has all tokens of the protection substituted at once and none left |
| PlaceRoundTrip.RestoredTextIsSubstituted | internal/gazetteer/matcher.go:190-226 | the same for any well-formed replacement list |
| PlaceRoundTrip.SequentialIsSimultaneous | internal/gazetteer/matcher.go:213-221 | replacing one token after another equals simultaneous substitution |
| PlaceRoundTrip.ScanIsExact | internal/gazetteer/matcher.go:240-253 | scanning past each match still decides whether any occurrence is attached, overlapping ones included |
| PlaceTokens.ReplaceOneMore | internal/gazetteer/matcher.go:213-221 | one more replaced token adds exactly its own substitution |
| PlaceTokens.TokenMatches | internal/gazetteer/matcher.go:16-18 | the token pattern matches a printed token exactly, whatever non-word text follows |
| PlaceTokens.TokenNumber | internal/gazetteer/matcher.go:127-159 | tokens with different numbers differ, whatever their labels |
| PlaceMatcher.ProtectField | internal/gazetteer/matcher.go:127-159 | the builder loop hides exactly the matches with context and a kind that is not visible that no word character touches; keeps all other text in order, and lists the replacements |
| PlaceMatcher.ProtectWithOptions | internal/gazetteer/matcher.go:99-125 | both fields are protected as `ProtectionIs` states, with one numbering; sources with the token prefix are refused |
| PlaceMatcher.SameTokenCounts | internal/gazetteer/matcher.go:228-238 | comparing sizes and expected counts decides equality of the token multisets |
| PlaceMatcher.StandaloneToken | internal/gazetteer/matcher.go:240-253 | the loop decides whether the token stands alone |
| PlaceMatcher.RestorePlaces | internal/gazetteer/matcher.go:190-226 | both checks and the replacement loop equal the specified restoration |
| PlaceHiding.ProtectionIs | internal/gazetteer/matcher.go:99-159 | refused exactly if a source contains the token prefix; otherwise a match is hidden exactly if its context holds, its kind is not visible and no word character touches it; each field is its text with exactly these spans replaced by their tokens, and the replacements list them with tokens numbered by first mention over both fields |
| Reports.Store.DocumentIncidentChanges | internal/store/incident_identity.go:30-93 | one change per incoming report in order: inserted exactly if no row has its number, unchanged exactly if one has its number, hash and context, updated otherwise; then every missing row once as removed, by position; refused exactly if the input or the stored identities are unacceptable |
| Reports.StatusIsExact | internal/store/incident_identity.go:67-80 | what an unchanged, inserted and updated report means for the rows of the document, in both directions |
| Reports.Store.ParkPositions | internal/store/live.go:250-258 | positions move out of the way row by row, every single write satisfying the uniqueness constraint |
| Reports.Store.WriteReports | internal/store/live.go:259-269 | each report is written to the row of its number or a new one, the constraint holding after every write |
| Reports.Store.ReplaceDocumentIncidents | internal/store/live.go:213-277 | the document ends with exactly the incoming reports, persisting numbers keep their row, missing ones are removed, other documents are untouched; any error changes nothing |
| Reports.Store.ApplyDocumentRepair | internal/store/incident_identity.go:95-117 | a repair applies only to the source that was previewed |
| Reports.SecondTimeUnchanged | internal/store/incident_identity.go:30-93 | applying the same reports again says of every report that it is unchanged and removes none |
| MapDistance.SegmentDistanceIsLeast | scripts/generate-munich-map.py:24-28 | no point of the segment is nearer |
| MapDistance.SegmentDistanceIsReached | scripts/generate-munich-map.py:24-28 | some point of the segment has that distance |
| MapSimplify.SimplifyBy | scripts/generate-munich-map.py:31-45 | the worklist terminates and equals the recursive form |
| MapSimplify.KeepIndices | scripts/generate-munich-map.py:31-44 | the worklist collects exactly the indices the recursion keeps |
| MapSimplify.DroppedPointsAreNear | scripts/generate-munich-map.py:31-45 | a dropped point is within the tolerance of the segment between the kept points enclosing it |
| MapSimplify.DroppedPointsAreWithinTenMetres | scripts/generate-munich-map.py:24-45 | so some point of that segment is within ten metres |
| MapOutline.KeptPointsAreFar | scripts/generate-munich-map.py:31-45 | a kept inner point was more than ten metres off the segment between two other kept points, and the farthest there |
| MapRings.SimplifyRings | scripts/generate-munich-map.py:48-79 | the graph, the splits and the cache of chains give exactly the specified rings; a collapsed ring refuses |
| MapRings.GraphIsUnique | scripts/generate-munich-map.py:50-54 | the neighbour graph, and with it the junctions, is determined by the edges alone, whatever the order of the rings |
| MapRings.SimplifiedRingKeepsJunctions | scripts/generate-munich-map.py:48-79 | a simplified ring is closed and keeps every junction |
| MapOutline.RingsAreOutlines | scripts/generate-munich-map.py:48-79 | every ring that is shown goes once around the original: it takes its points in their order, every junction among them, and all points left out are within ten metres of the segment shown instead |
| MapOutline.RefusedRingsCollapse | scripts/generate-munich-map.py:76-77 | rings are refused only if fewer than three points are left of one of them |
| MapOutline.JunctionsAreExact | scripts/generate-munich-map.py:50-55 | the junctions are the points that do not have exactly two neighbours in all rings together |
| MapTies.OpenChainsComeOutReversed | scripts/generate-munich-map.py:69-75 | a chain whose ends differ, followed the other way, comes out as the exact reverse |
| MapTies.ClosedChainsComeOutReversed | scripts/generate-munich-map.py:31-75 | a chain that ends where it starts does so exactly if it makes no difference which of equally far points counts |
| MapTies.NoTiesAreHarmless | scripts/generate-munich-map.py:31-45 | which is the case if in every range that is split one point is farther than all others |
| MapTies.TiesDiffer | scripts/generate-munich-map.py:31-45 | and not the case if one of the points that count in the two directions is dropped in the other direction |
| MapTies.SegmentDistancesAreSymmetric | scripts/generate-munich-map.py:24-28 | the distance to a segment does not depend on its direction |
| MapBorders.SharedBordersStayReverses | scripts/generate-munich-map.py:48-79 | whatever rings are simplified together: a border from junction to junction that two of them follow in opposite directions is shown as exact reverses if it ends elsewhere or its ties are harmless |
| MapIslands.IslandsStayReverses | scripts/generate-munich-map.py:60-75 | two rings of the same points with fewer than two junctions show both parts as exact reverses if one point is farthest from the fixed one |
| MapPockets.PocketsStayReverses | scripts/generate-munich-map.py:48-79 | a closed border of one ring that is the whole other ring is shown as exact reverses if it has no ties, although only the other ring is split at its farthest point |
| MapPockets.HalvesAreJoined | scripts/generate-munich-map.py:31-45 | a chain whose farthest point is kept comes out as its two halves one after the other |
| MapTieExamples.ClosedBordersMayDiffer | scripts/generate-munich-map.py:48-79 | two rings with a tied closed border whose results differ |
| MapTieExamples.IslandsMayDiffer | scripts/generate-munich-map.py:48-79 | two rings of one island with a tied farthest point whose results differ |
| MapLabel.LabelPosition | scripts/generate-munich-map.py:93-116 | the search terminates, and no point of the bounding box, or of the square around it, scores more than 0.5 above the result |
| LocationCatalog.Ancestor | internal/location/catalog.go:126-138 | the bounded walk decides true transitive containment, cycles included |
| LocationCatalog.ShortestFits | internal/location/catalog.go:126-138 | a shortest walk is no longer than the catalog |
| LocationCatalog.ContainersAreComparable | internal/location/catalog.go:118-138 | two places that contain a third contain one another |
| LocationGroups.ContainmentIsExact | internal/location/catalog.go:118-138 | a place contains another exactly if a chain of entries leads from one to the other, each the parent of the one before |
| LocationEvidence.ContainsName | internal/location/assessment.go:162-183 | the search loop ends; a name that it finds stands in the text as a word, and one that stands there and does not overlap itself is found |
| LocationEvidence.FoundNamesStand | internal/location/assessment.go:162-183 | a name that is found stands in the text between characters that are no part of a word |
| LocationEvidence.SearchIsCompleteExactly | internal/location/assessment.go:162-183 | every name that stands as a word is found exactly if the name does not overlap itself at a word boundary |
| LocationResolve.SelectLowest | internal/location/assessment.go:139-149 | a lowest area is selected exactly if the areas form a containment chain; of several lowest ones it is the first |
| LocationResolve.Resolve | internal/location/assessment.go:51-160 | refused exactly if a mention is out of bounds or not grounded in its text; an area is proposed exactly for a single scope with a chain of known primary areas; it is the lowest, and the outcome says what became of it |
| LocationOrder.SelectionIgnoresOrderExactly | internal/location/assessment.go:139-149 | the selected area is the same for all lists of the same areas exactly if the catalog has no containment cycle |
| LocationOrder.ProposalIgnoresOrderExactly | internal/location/assessment.go:64-157 | what is proposed, and whether, is the same for all orders of accepted mentions exactly if no two places that can be mentioned lie within each other |
| LocationPlaces.ProposalIs | internal/location/assessment.go:64-157 | an area is proposed exactly for a single scope without an unclear primary mention and with an area that all meant areas are or contain; it is the one of these mentioned first; which area a mention means is said of the entries alone |
| LocationDistricts.BuildDistrictGroups | internal/location/districts.go:33-65 | the nested loops give every name the specified group |
| LocationDistricts.FindGroup | internal/location/districts.go:36-52 | the walk up from an entry finds its district, a municipality outside, or nothing |
| LocationDistricts.GroupsDoNotDependOnOrder | internal/location/districts.go:33-75 | catalogs with the same entries in any order give the same groups |
| LocationDistricts.ConflictIsUnassigned | internal/location/districts.go:53-75 | a name whose entries disagree, or that nobody has, is unassigned |
| LocationDistricts.AgreementDecides | internal/location/districts.go:53-75 | otherwise it has the group all its entries agree on |
| LocationGroups.GroupIsExact | internal/location/districts.go:36-52 | an entry has a group exactly if its chain of parents leads to a Munich district or to another municipality, the first of them on the way |
| LocationGroups.NameIsExact | internal/location/districts.go:53-75 | a name has a group exactly if all its entries lead to that group and it has one |
| ClockMatching.Match | internal/processing/steps.go:949-972 | greedy matching accepts exactly if for every time required ≤ source ≤ required + optional, and pairs every source clock with an equal one of its own |
| ClockMatching.Blank | internal/processing/steps.go:973-983 | the spans become blanks, nothing else changes and the length stays |
| ClockMatching.RemoveEquivalentTimes | internal/processing/steps.go:918-983 | accepts exactly if a side has no clocks or every time is balanced; blanks all source clocks and as many distinct equal ones of the translation |
| ClockMatching.RequiredAreUsed | internal/processing/steps.go:951-972 | first-come use of equal times reaches all required ones exactly if enough are used |
| ClockMatching.ExtensionIsExact | internal/processing/steps.go:918-945 | a further span is compared exactly if it has no character in common with a span taken before |
| ClockMatching.CountIsExact | internal/processing/steps.go:949-972 | the counts are the numbers of places with that time |
| ContactStore.Store.CreateContact | internal/store/contact.go:64-115 | a known submission is a duplicate; the form, and for a test notifications, a pending test and the budget decide; a created message is pending or, with notifications off, cancelled; no other row changes |
| ContactStore.Store.ClaimContact | internal/store/contact.go:240-280 | the oldest message that may be sent is claimed, its attempts and both counters rise by one; without budget, switch or message nothing changes |
| ContactSystem.CountersAddUp | internal/store/contact.go:222-282 | over every run no stored counter exceeds its limit or what was claimed, and each month is the sum of its days |
| ContactSystem.PurgeKeepsCounters | internal/store/contact.go:222-236 | purging keeps month sums equal to day sums and never touches the current month |
| ContactQuota.QuotaHoldsExactly | internal/store/contact.go:222-282 | the moments of claims and purges keep every run within every limit exactly if no purge drops a month between two claim attempts in it |
| ContactQuota.QuotaIsNeverExceeded | internal/store/contact.go:238-282 | without such a purge claims per day and month stay within the limits, whatever else happens |
| ContactQuota.SomeRunExceeds | internal/store/contact.go:222-282 | with such a purge some run with these very moments exceeds its limits |
| ContactQuota.MonotoneClocksNeverForget | internal/store/contact.go:222-236 | a clock that never goes back has no such purge |
| ContactQuota.ClocksSetBackExceed | internal/store/contact.go:222-282 | a clock set back behind a purge has one |
| ContactMessages.SettledMessagesAreNeverClaimed | internal/store/contact.go:238-282 | accepted and cancelled messages are never claimed again |
| ContactMessages.UncertainMessagesNeedARetry | internal/store/contact.go:166-205 | an uncertain message is claimed again only after an explicit retry |
| ContactMessages.InterruptedMessagesNeedARetry | internal/store/contact.go:217-220 | a message that was being sent when the process stopped is uncertain after the restart and is claimed again only after an explicit retry |
| GazetteerTables.NewestAreFew | internal/gazetteer/history.go:170-176 | pruning leaves at most the limit |
| GazetteerEffects.NewestIsExact | internal/gazetteer/history.go:170-176 | a record is among those kept exactly if fewer than the limit have a larger ID |
| GazetteerEffects.ActivationIs | internal/gazetteer/store.go:332-425 | only a running refresh succeeds; new content becomes the only active generation and of the earlier ones the newest stays, superseded; old content changes no generation |
| GazetteerSystem.OneActiveForEver | internal/gazetteer/store.go:336-425 | once a refresh has succeeded, after whatever follows exactly one generation is active, the state row names it, and at most two survive |
| GazetteerSystem.ActivationIsExact | internal/gazetteer/store.go:332-425 | a success with new content makes exactly one new generation active and keeps only the one that was active before; with the same content nothing changes |
| GazetteerSystem.ActiveContentIsTheLastSuccess | internal/gazetteer/manager.go:114-208 | over every run the active content is what the last successful refresh brought, whatever failed, crashed or was interrupted since |
| GazetteerSystem.RefreshesCanAlwaysSucceed | internal/gazetteer/manager.go:114-208 | whatever happened before, a refresh of any sources can still succeed and its content become active, with no restart unless the process is down |
| GazetteerSystem.EndedRefreshIsRecorded | internal/gazetteer/history.go:40-176 | however a refresh ends, its record survives pruning and says of every source what became of it |
| GazetteerSystem.FinishedRefreshesAreComplete | internal/gazetteer/history.go:40-176 | a finished refresh has no pending or fetching source, and at most five hundred are remembered |
| ReaderTrend.SpanIsFound | internal/store/reader_stats.go:184-198 | the loop finds first and last day in every iteration order exactly if Go's zero day is missing, alone, or neither first nor last |
| ReaderTrend.PublicationTrend | internal/store/reader_stats.go:180-214 | the loops give the trend as a function of both iteration orders, an index out of range included |
| ReaderTrendExact.TrendIsRightExactly | internal/store/reader_stats.go:180-214 | for dates from year 0 on, the trend is right in all orders of its loops exactly if the zero day is harmless or all days are in its week |
| ReaderTrendExact.PanicsAtYearOne | internal/store/reader_stats.go:180-214 | two days around the turn to year one for which an order makes the index go out of range |
| ReaderTrendExact.CountedAreBins | internal/store/reader_stats.go:199-212 | counted from the Monday of any day not after them, all days land in range and the bins hold exactly them |
| ReaderTrend.BinIsUnique | internal/store/reader_stats.go:199-212 | a day lies in the bin it is counted in and in no other |
| ReaderTrend.TrendIsWellFormed | internal/store/reader_stats.go:180-214 | at most 104 bins, contiguous, beginning on Mondays, every day in one of them |
| ReaderTrend.TrendConserves | internal/store/reader_stats.go:180-214 | the bins hold exactly the publications of the days, both counts |
| ReaderStats.Aggregate | internal/store/reader_stats.go:108-147 | every counter is the sum of the rows it stands for; an unregistered district is an error |
| ReaderStats.CountersAreExact | internal/store/reader_stats.go:108-147 | both numbers of every counter are added up over exactly the rows of its group, district, category or day |
| ReaderStats.StatsAreConserved | internal/store/reader_stats.go:114-155 | mapped, outside and unassigned add up to the total, and the districts to mapped |

## Left out

- MapIslands.IslandsStayReverses: for the split at the farthest point a unique one is sufficient; `MapTieExamples.IslandsMayDiffer` shows that ties can matter, not that all do.
- MapPockets.PocketsStayReverses: assumes that the farthest point is kept and without ties; the converse is not stated.
- MapLabel.LabelPosition: the bound on the score inside a cell is a hypothesis, square root of two included; the signed distance with its ray casting is not modelled.
- LocationOrder.ProposalIgnoresOrderExactly: assumes a catalog with unique IDs.
- ReaderTrendExact.TrendIsRightExactly: dates before year 0, which the date format cannot write, are not considered.
- Unicode tables of the location resolver: normal forms, letters and byte lengths are parameters; a text with a catalog key has searchable text.
- Database errors, audit rows, timestamps that no decision reads, and the source mode column.
- The number of models of a request is the number of registered steps; requests of another length do nothing.
- Deleting incidents and its cascades in the pipeline tables.
- Hashes are compared through what they digest, so they are injective.
- Adapters are taken as trimmed, and blank text means ASCII white space.
- The candidate scan of queueing post-processing for all incidents, and its cutovers.
- Retry delays, jitter, schedules, circuit breakers and model availability: a worker may leave a cycle at any time instead.
- The preview loop of the batch status page.
- `INSERT OR REPLACE` and changes of primary keys of the base tables of the reader index.
- Full Unicode case folding: the searchable text folds ASCII and the Turkish letters I.
- JSON decoding of stored outputs, which are decoded values here.
- Unicode tables and the automaton of the matcher: letters and Han characters are predicates, matches an ordered list of non-overlapping occurrences, and the context conditions on a match a flag.
- The regular expressions and locale rules that find clocks: matching starts from their spans.
- Floating-point rounding in the map generator.
- Reading state, search and paging of contact messages; the text of a message is its hash.
- HTTP caching of gazetteer sources, merging of entries, and the time of the next refresh.
- Clipping the trend to a filter period, and the SQL that groups the rows.
- HTTP, model, feed and mail clients, prompts, privacy redaction, web pages and the command line.
