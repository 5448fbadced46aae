# Verification of the dubbing platform's decidable core

This project models the parts of the platform whose correctness is a matter of logic rather than of
configuration, and proves what they promise. One module follows one source file or component.

**Timelines.** `Overlap` (which diarized turns are spoken over), `Partition` (cutting a dialogue timeline into
scenes), `Diarization` (normalizing a provider's speaker turns) and `Transcript` (accepting a transcription).
The loops are methods over sequences and an array, proved against independent definitions: intersection with
another speaker, the fewest scenes, conservation of speech time, a global order.

**Lease protocols.** `MediaLease` is the transition system of one source-preparation job: attempts, stage, job and
outbox rows; `SourcePreparation.Store` holds the same rows as fields and updates them in place.
`GenerationLease` is the queue of translation generations. Each database transaction is one atomic step that
decides by a compare-and-set. A run is any sequence of steps by anyone, with any attempt, any token and any clock
reading, so workers may stall for ever and act late. Tokens, executions and drawn ids come from a counter, which
stands for the uniqueness of the drawn UUIDs.

**Editorial state.** `Editorial` has the revision logs and counted selections and the five editing operations;
`TranslationWorker` adds generations, their snapshots and the commit, and proves what holds over all
interleavings of edits and workers. `LocalizationStore.Store` holds the tables as fields; its methods are the
service's and the worker's transactions, and each equals the corresponding step.

**Smaller algorithms.** `Tiling`, `Manifest`, `WorkerPool`, `MovieUpload`, `Checkpoints` and `UploadSession`
(multipart upload on both sides), `JsonText` and `CanonicalJson` (the hash preimage), `Pagination` (keyset
cursors), `Uuid` (the UUIDv7 generator of section 5.7 of RFC 9562), `ResultCheck` (accepting an executor's
result). `Sorting`, `StableSort`, `Decimal`, `Backoff` and `Wrappers` are shared.

## What the code does not do

Two promises are false of the code as it stands. The first is refuted for every longer history, the second by a
concrete run, and the exact condition under which each holds is proved.

- **A translation's history cannot be paged.** Its rows carry both the dialogue's and the translation's id; the
  cursor is built from the first (`historyResourceId`), the reader checks it against the second. The second page
  is refused for every history longer than a page. `Pagination.TranslationHistoryReadable` gives the exact
  condition, `Pagination.TranslationSecondPageRejected` the failure. All other listings accept their cursors
  (`Pagination.OtherListingsAcceptTheirCursors`).
- **A checkpoint can shrink.** A rejected run is not aborted, so its remaining uploads go on; if the user retries
  first, one of them overwrites what the new run recorded (`Checkpoints.LeftoverShrinksRecord`). The
  record is kept at every step exactly if, whenever a session saves, it has completed each part that others
  finished and saved since it was opened (`Checkpoints.KeptBySchedule`; `Checkpoints.RecordKeptExactly` says the
  same of the record of that moment). `Checkpoints.RecordGrows` is the case in which only the newest session
  finishes parts. The final manifest is right in either case.

## What callers guarantee

Three results are about inputs more general than those the code gets, and say how much of the callers' guarantees
is needed.

- **Overlap flags.** Of turns in any order every overlapping one is flagged (`Overlap.OverlapIsFlagged`), and no
  others exactly if turns out of order are spoken over anyway (`Overlap.FlagsAreOverlapsExactly`). The manifest
  reader refuses turns out of order before the only caller gets them
  (`apps/api/src/modules/speech-analysis/infrastructure/speech-manifest-reader.service.ts:357-374`), and normalized
  turns are in order (`Diarization.NormalTurnsOverlapExactly`).
- **Fewest scenes.** Whenever the loop has read a dialogue its scenes are the fewest for the dialogues read, exactly
  if no dialogue could begin a scene that swallows the next one and the dialogue after it
  (`Partition.FewestSoFarExactly`, `Partition.CoversMostExactly`). For the whole timeline alone that condition is
  shown sufficient (`Partition.GreedyIsMinimalInAnyOrder`), and is not claimed to be necessary. It holds if each
  scene starts no earlier than the dialogues of the scene before it (`Partition.OrderedSceneStartsSuffice`), as it
  does where the code runs: the caller passes dialogues that were numbered in time order
  (`apps/api/src/modules/localization/application/localization.service.ts:470`).
  `Partition.MinimalityNeedsStartOrder` is a timeline that has no such order.
- **Canonical forms.** The worker's goes through an object, whose array-index keys are enumerated first and
  numerically, so `"10"` and `"9"` change places even if the comparators agree (`CanonicalJson.IndexKeysDisagree`);
  `CanonicalJson.WorkerTextMatches` is the exact condition. Snapshots are parsed against fixed schemas, in which no
  property is named by a number.

The code and its comments agree on everything else that is modelled here. The branch of `claim` that gives up a
generation out of attempts, and the last check of `assertCompleteResult`, are proved unreachable.

## Model

| member | source | states |
|---|---|---|
| Overlap.TopTwoAfterUpdate | apps/api/src/modules/speech-analysis/application/speech-analysis-persistence.service.ts:537-555 | after one more turn the first slot holds the extreme boundary of all turns seen and the second the extreme over speakers other than the first's |
| Overlap.MinimumMirrorsMaximum | apps/api/src/modules/speech-analysis/application/speech-analysis-persistence.service.ts:557-575 | the minimum update is the maximum update on the mirrored time axis |
| Overlap.OtherSpeakerIsExtreme | apps/api/src/modules/speech-analysis/application/speech-analysis-persistence.service.ts:506-507 | the slot chosen for a speaker passes a limit exactly when some seen boundary of another speaker does |
| Overlap.ReachIsOverlap | apps/api/src/modules/speech-analysis/application/speech-analysis-persistence.service.ts:499-530 | on start-sorted, non-empty turns, reaching over from an earlier turn or from a later one is intersection with another speaker, and conversely |
| Overlap.OverlapIsFlagged | apps/api/src/modules/speech-analysis/application/speech-analysis-persistence.service.ts:499-530 | in any list, of empty turns too, every turn that intersects a turn of another speaker is flagged |
| Overlap.FlagsAreOverlapsExactly | apps/api/src/modules/speech-analysis/application/speech-analysis-persistence.service.ts:499-530 | for non-empty turns in any order: the flagged turns are exactly the overlapping ones if and only if both turns of every pair out of order, of different speakers, are spoken over |
| Overlap.OverlappingTurnFlags | apps/api/src/modules/speech-analysis/application/speech-analysis-persistence.service.ts:499-530 | the two linear passes miss no overlap; of non-empty turns they flag exactly the overlapping ones if and only if turns out of order are spoken over anyway, as in every start-sorted list |
| Overlap.UnsortedTurnsMislead | apps/api/src/modules/speech-analysis/application/speech-analysis-persistence.service.ts:499-530 | a list out of order whose second turn is flagged though it overlaps nothing |
| Partition.PartitionLocalizationScenes | apps/api/src/modules/localization/application/localization-partitioner.ts:24-62 | the scenes are contiguous blocks of the sorted timeline, numbered from 1, non-empty, within the three rules, each with the maximum end of its members, and each cut is forced by one of the rules |
| Partition.ScenesConcatenate | apps/api/src/modules/localization/application/localization-partitioner.ts:27-61 | reading the scenes in order gives the sorted timeline, nothing lost or repeated |
| Partition.TimelineInOrder | apps/api/src/modules/localization/application/localization-partitioner.ts:27-32 | the timeline goes by sequence number, then start, then id, and holds the dialogues given |
| Partition.SceneEndBound | apps/api/src/modules/localization/application/localization-partitioner.ts:41-58 | a scene ends by the later of its first dialogue's end and a minute after its start |
| Partition.GreedyStaysAhead | apps/api/src/modules/localization/application/localization-partitioner.ts:35-59 | with non-decreasing starts the i-th cut is at or beyond the i-th cut of any partition meeting the rules |
| Partition.GreedyIsMinimal | apps/api/src/modules/localization/application/localization-partitioner.ts:33-61 | with non-decreasing starts no contiguous partition meeting the rules has fewer scenes |
| Partition.CoversMostExactly | apps/api/src/modules/localization/application/localization-partitioner.ts:33-61 | for any start times: the first k scenes cover as many dialogues as any k scenes within the rules, for every k, if and only if no dialogue inside a scene could begin a scene that holds all of the next one and the dialogue after it |
| Partition.FewestSoFarExactly | apps/api/src/modules/localization/application/localization-partitioner.ts:33-61 | for any start times: after every dialogue the scenes made so far are the fewest for the dialogues read, if and only if nothing swallows a scene in that sense |
| Partition.CutsSoFar | apps/api/src/modules/localization/application/localization-partitioner.ts:33-61 | the scenes made so far are those the rules force on the dialogues read alone |
| Partition.OrderedSceneStartsSuffice | apps/api/src/modules/localization/application/localization-partitioner.ts:33-61 | nothing swallows a scene if each scene starts no earlier than the dialogues of the scene before it; order is needed nowhere else |
| Partition.GreedyIsMinimalInAnyOrder | apps/api/src/modules/localization/application/localization-partitioner.ts:33-61 | for any start times, if nothing swallows a scene, no contiguous partition meeting the rules has fewer scenes |
| Partition.MinimalityNeedsStartOrder | apps/api/src/modules/localization/application/localization-partitioner.ts:27-32 | a timeline with starts out of order where two scenes would do and three are made |
| Partition.GreedyPartitionUnique | apps/api/src/modules/localization/application/localization-partitioner.ts:33-61 | what is promised of the scenes determines them completely |
| Partition.InputOrderIrrelevant | apps/api/src/modules/localization/application/localization-partitioner.ts:20-23 | inputs with the same dialogues give the same scenes, when ids are distinct |
| Transcript.ValidateTranscriptionResult | services/ai/src/voiceverse_ai/speech/service.py:627-667 | accepts exactly if every segment passes every check, and otherwise reports the first failing check; the words of an accepted result are one timeline |
| Transcript.VerdictsNameChecks | services/ai/src/voiceverse_ai/speech/service.py:627-667 | each verdict names the check that failed, and the checks before it passed |
| Transcript.AdjacentChecksAreGlobal | services/ai/src/voiceverse_ai/speech/service.py:627-667 | the adjacent checks accept exactly the timelines in which all segments are in order, pairwise disjoint and in range, with their words likewise inside them |
| Transcript.AcceptedTranscriptIsTimeline | services/ai/src/voiceverse_ai/speech/service.py:627-667 | if every segment passes every check, all words of the result, read across segments, are sorted, pairwise disjoint and inside the recording |
| Diarization.NormalizeDiarization | services/ai/src/voiceverse_ai/speech/service.py:670-738 | rejects exactly when a turn exceeds the duration or sorted exclusive turns overlap, and otherwise returns ranked speakers and keyed turns over the sorted input |
| Diarization.RejectedExactly | services/ai/src/voiceverse_ai/speech/service.py:670-738 | a result is rejected exactly if a turn ends after the recording, or else if two exclusive turns, in whatever order, meet |
| Diarization.CollectSource | services/ai/src/voiceverse_ai/speech/service.py:670-738 | the first loop keeps each label's earliest start and the sum of its turns |
| Diarization.CollectExclusive | services/ai/src/voiceverse_ai/speech/service.py:670-738 | the second loop adds exclusive turns to the earliest starts, and to the totals of labels without regular turns only |
| Diarization.RankSpeakers | services/ai/src/voiceverse_ai/speech/service.py:670-738 | every label heard is one speaker, ranked by first turn, total speech and label, with keys in rank order |
| Diarization.KeysFollowHearing | services/ai/src/voiceverse_ai/speech/service.py:670-738 | the lower key goes to the label heard first, then to the one heard longer, then to the label that sorts first; keys have four digits or more |
| Diarization.TurnsInOrder | services/ai/src/voiceverse_ai/speech/service.py:670-738 | accepted turns come by start, then end, then label |
| Diarization.AdjacentDisjoint | services/ai/src/voiceverse_ai/speech/service.py:670-738 | comparing neighbours decides pairwise disjointness of sorted turns |
| Diarization.KeyInjective | services/ai/src/voiceverse_ai/speech/service.py:670-738 | different ranks have different speaker keys, past four digits as well |
| Diarization.KeysIdentifyLabels | services/ai/src/voiceverse_ai/speech/service.py:670-738 | two turns have the same key exactly when they have the same label |
| Diarization.DependsOnMultisets | services/ai/src/voiceverse_ai/speech/service.py:670-738 | the whole outcome depends only on the multisets of regular and exclusive turns |
| Diarization.ExclusiveFitsDuration | services/ai/src/voiceverse_ai/speech/service.py:670-738 | accepted exclusive turns together last no longer than the recording |
| Diarization.SpeechConserved | services/ai/src/voiceverse_ai/speech/service.py:670-738 | the speakers' totals add up to the attributed turns: regular ones, and exclusive ones of labels otherwise unheard |
| Diarization.NormalTurnsOverlapExactly | services/ai/src/voiceverse_ai/speech/service.py:670-738 | for an accepted result the overlap test of the persistence service says exactly when another label was heard during the turn |
| MediaLease.InvRun | apps/api/src/modules/media-processing/application/media-processing-worker.service.ts:251-398 | over every run: attempts numbered 1..n up to the limit, only the last unfinished, a lease exactly while an attempt runs, at most one recovery each, one event each, stage and job agreeing with the last attempt |
| MediaLease.StartsWaiting | apps/api/src/modules/media-processing/application/media-processing-worker.service.ts:251-290 | a new job waits for its first attempt with a pending event that is due |
| MediaLease.TerminalAbsorbing | apps/api/src/modules/media-processing/application/media-processing-worker.service.ts:400-493 | attempts, stage and job of a finished job never change again |
| MediaLease.EndedAttemptFixed | apps/api/src/modules/media-processing/application/media-processing-worker.service.ts:657-807 | an attempt that ended keeps its row for ever |
| MediaLease.AtMostOneSucceeds | apps/api/src/modules/media-processing/application/media-processing-worker.service.ts:400-493 | at most one attempt ever succeeds, it is the last, and one succeeded exactly when the job did |
| MediaLease.SupersededIsInert | apps/api/src/modules/media-processing/application/media-processing-worker.service.ts:409-423 | a worker with a superseded token changes nothing by completing, failing, timing out or beating, at any later time |
| MediaLease.TakeoverSupersedes | apps/api/src/modules/media-processing/application/media-processing-worker.service.ts:287-322 | whatever ends a token's hold supersedes it |
| MediaLease.ClaimableExactly | apps/api/src/modules/media-processing/application/media-processing-worker.service.ts:274-327 | in reachable states a claim takes exactly attempts that wait, or whose first lease ran out: the checks of stage and job never stand in the way |
| MediaLease.ClaimLeases | apps/api/src/modules/media-processing/application/media-processing-worker.service.ts:297-327 | a claim's token alone holds the attempt, until the lease's end, and every earlier holder is superseded |
| MediaLease.CompletionSucceeds | apps/api/src/modules/media-processing/application/media-processing-worker.service.ts:400-452 | completing an attempt under its token ends attempt, stage and job as succeeded, and changes neither other attempts nor events |
| MediaLease.FailsExactly | apps/api/src/modules/media-processing/application/media-processing-worker.service.ts:657-700 | a worker's failure takes effect exactly under the attempt's token, and recovery's only if the lease ran out as well |
| MediaLease.FinalFailure | apps/api/src/modules/media-processing/application/media-processing-worker.service.ts:701-807 | a failure that is not retryable, or has no attempt left, fails attempt, stage and job, and schedules no attempt and no event |
| MediaLease.RetriedFailure | apps/api/src/modules/media-processing/application/media-processing-worker.service.ts:701-756 | a retryable failure with an attempt left queues exactly the next attempt and its event, due after 5 seconds doubled for each earlier retry |
| MediaLease.HeartbeatExtends | apps/api/src/modules/media-processing/application/media-processing-worker.service.ts:809-829 | a beat under the held token keeps every claim out until now plus the lease, lets recovery in after it, and changes nothing else |
| MediaLease.ClaimExcludes | apps/api/src/modules/media-processing/application/media-processing-worker.service.ts:287-322 | after a claim the attempt can be claimed again exactly once its lease ran out, and only if that was its first |
| MediaLease.ReplayableExactly | apps/api/src/modules/media-processing/application/media-processing-worker.service.ts:166-209 | recovery redelivers exactly the event of an attempt that can be claimed, published long enough ago and, if the attempt waits, due and queued for long enough |
| MediaLease.ReplayIsDue | apps/api/src/modules/media-processing/application/media-processing-worker.service.ts:199-209 | a redelivered event is due at once, and nothing else changes |
| MediaLease.RelayExcludes | apps/api/src/modules/workers/application/outbox-relay.service.ts:31-59 | an event taken by the relay can be taken again exactly once its lease ran out |
| MediaLease.PublishRecords | apps/api/src/modules/workers/application/outbox-relay.service.ts:61-92 | under its own lease the relay records an event as published now, or as due again after its delay, and under another it changes nothing |
| MediaLease.RunsAreBounded | apps/api/src/modules/media-processing/application/media-processing-worker.service.ts:46 | heartbeats and deliveries aside, at most 3 * maxAttempts steps of any run take effect |
| MediaLease.ExecutionsAreBounded | apps/api/src/modules/media-processing/application/media-processing-worker.service.ts:300-325 | the work is claimed for execution at most 2 * maxAttempts times in any run |
| MediaLease.BackoffTotal | apps/api/src/modules/media-processing/application/media-processing-worker.service.ts:701-756 | the delays before n retries add up to 5000 * (2^n - 1) milliseconds |
| Backoff.DelaysDouble | apps/api/src/modules/media-processing/application/media-processing-worker.service.ts:714-718 | the second attempt waits five seconds, and each further one twice as long as the one before |
| MediaLease.BackoffIsBounded | apps/api/src/modules/media-processing/application/media-processing-worker.service.ts:701-756 | the scheduled delays of a job total at most 5000 * (2^(maxAttempts - 1) - 1) milliseconds |
| MediaLease.RetryIsScheduled | apps/api/src/modules/media-processing/application/media-processing-worker.service.ts:701-756 | a retry queues one attempt with the next number and one pending event, due when the stage is ready |
| MediaLease.NoStrandedWork | apps/api/src/modules/media-processing/application/media-processing-worker.service.ts:161-249 | after a late enough recovery pass, whatever its window, an unfinished job was timed out, or its event is one the relay will deliver and its attempt one a claim will take |
| MediaLease.StalledWorkersEndTheJob | apps/api/src/modules/media-processing/application/media-processing-worker.service.ts:161-249 | the bounds are reached: workers that always stall drive any unfinished job to FAILED, using every claim that was left |
| SourcePreparation.Store.constructor | apps/api/src/modules/workflow/application/source-preparation-initializer.service.ts:39-150 | a new job has attempt 1 queued with its event pending |
| SourcePreparation.Store.ClaimAttempt | apps/api/src/modules/media-processing/application/media-processing-worker.service.ts:251-398 | the transaction is the claim step; a token is returned exactly if the attempt could be claimed, and it then holds it |
| SourcePreparation.Store.CompleteAttempt | apps/api/src/modules/media-processing/application/media-processing-worker.service.ts:400-493 | the transaction is the completion step and wins exactly under a held token |
| SourcePreparation.Store.FailAttemptById | apps/api/src/modules/media-processing/application/media-processing-worker.service.ts:657-807 | the transaction is the failure step: the attempt ends and the next one is queued, or stage and job fail |
| SourcePreparation.Store.Heartbeat | apps/api/src/modules/media-processing/application/media-processing-worker.service.ts:809-831 | extends the lease under a held token and nothing else |
| SourcePreparation.Store.RecoverExpiredAttempts | apps/api/src/modules/media-processing/application/media-processing-worker.service.ts:161-249 | the pass times out the last attempt if its second lease ran out, and otherwise redelivers its stale event |
| Editorial.InvEdit | apps/api/src/modules/localization/application/localization.service.ts:793-1365 | every edit keeps: each translation has a selection among its own revisions, and what is in review or approved was written against the active source |
| Editorial.SourceChanged | apps/api/src/modules/localization/application/localization.service.ts:2171-2191 | reopening all translations of a dialogue on all tracks is what keeps a source change consistent |
| Editorial.EditCounts | apps/api/src/modules/localization/application/localization.service.ts:1079-1112 | an edit raises a translation's counter by exactly one if it changes its selection or its source selection, leaves it otherwise, keeps the translation's id, and only appends revisions |
| Editorial.SourceEditTakesEffect | apps/api/src/modules/localization/application/localization.service.ts:826-856 | an accepted source edit makes its text the active source, leaves other dialogues alone, and leaves every translation its text, as a draft that is no longer fresh |
| Editorial.SourceSelectionTakesEffect | apps/api/src/modules/localization/application/localization.service.ts:943-970 | an accepted selection makes the revision asked for the active source, leaves other dialogues and both logs alone, and sends every translation of the dialogue to draft with its text |
| Editorial.TargetEditTakesEffect | apps/api/src/modules/localization/application/localization.service.ts:1052-1112 | an accepted target edit selects its text as a draft against the active source, and touches no other translation |
| Editorial.TargetSelectionTakesEffect | apps/api/src/modules/localization/application/localization.service.ts:1319-1340 | an accepted selection selects the revision asked for as a draft, and touches no other translation and no source |
| Editorial.StateChangeTakesEffect | apps/api/src/modules/localization/application/localization.service.ts:1177-1205 | an accepted change of state keeps the text, raises the counter by one and touches nothing else |
| Editorial.ReviewsAreNotSkipped | apps/api/src/modules/localization/application/localization.service.ts:2641-2656 | every change of state is allowed but approving a draft and sending an approved text back to review |
| Editorial.GrantedExactly | apps/api/src/modules/localization/application/localization.service.ts:793-1365 | each of the five requests changes something exactly if the counter is the one the editor saw, the target exists, it would change something, and what leaves draft was written against the active source |
| GenerationLease.InvWork | apps/api/src/modules/localization/application/translation-generation-worker.service.ts:231-370 | every step keeps: a lease exactly while running, an attempt left while queued, a delivering event for every queued generation, deduplication keys never repeated |
| GenerationLease.RequestQueues | apps/api/src/modules/localization/application/localization.service.ts:1913-1990 | a request queues the generation with no attempt counted, and the event that is due at once |
| GenerationLease.ClaimAlwaysRuns | apps/api/src/modules/localization/application/translation-generation-worker.service.ts:310-370 | a claim of a waiting generation always leases it and counts one attempt: the exhausted branch is unreachable |
| GenerationLease.ExhaustedClaimFails | apps/api/src/modules/localization/application/translation-generation-worker.service.ts:315-337 | a waiting generation out of attempts, which no run leads to, would be failed by a claim |
| GenerationLease.ClaimLeases | apps/api/src/modules/localization/application/translation-generation-worker.service.ts:339-370 | a claim leases the generation to the issued token and execution exactly until now plus the lease, and touches no other |
| GenerationLease.HeartbeatExtends | apps/api/src/modules/localization/application/translation-generation-worker.service.ts:773-797 | a beat under the held token makes the lease last exactly until now plus the lease, and changes nothing else |
| GenerationLease.FailsExactly | apps/api/src/modules/localization/application/translation-generation-worker.service.ts:692-735 | a failure takes effect exactly under the token, the worker's while its lease lasts and recovery's once it ran out |
| GenerationLease.FinalFailure | apps/api/src/modules/localization/application/translation-generation-worker.service.ts:706-735 | a failure that is not retryable, or has no attempt left, fails the generation and schedules no event |
| GenerationLease.RetriedFailure | apps/api/src/modules/localization/application/translation-generation-worker.service.ts:706-759 | a retryable failure with an attempt left queues the generation and exactly one event, due after 5 seconds doubled for each earlier retry |
| GenerationLease.ReplaysExactly | apps/api/src/modules/localization/application/translation-generation-worker.service.ts:235-257 | recovery makes exactly the stale events of waiting generations pending and due at once |
| GenerationLease.PublishesExactly | apps/api/src/modules/workers/application/outbox-relay.service.ts:31-75 | the relay publishes an event exactly if it is pending and due, and touches no other |
| GenerationLease.QueuedIsDeliverable | apps/api/src/modules/localization/application/translation-generation-worker.service.ts:231-274 | a queued generation has attempts left and an event that is pending or that recovery makes pending |
| GenerationLease.NothingIsStranded | apps/api/src/modules/localization/application/translation-generation-worker.service.ts:231-274 | after a recovery pass of any limit no lease is left expired and every queued generation's event is pending or freshly published, except where the limit was reached by rows that waited at least as long |
| GenerationLease.ExpiredIsRecovered | apps/api/src/modules/localization/application/translation-generation-worker.service.ts:692-771 | recovery puts an expired generation back while attempts are left and fails it otherwise |
| TranslationWorker.InvRun | apps/api/src/modules/localization/application/translation-generation-worker.service.ts:447-601 | the joint invariant over every interleaving of edits, selections, requests, claims, failures, heartbeats and commits |
| TranslationWorker.ExactlyOnce | apps/api/src/modules/localization/application/translation-generation-worker.service.ts:483-575 | in every reachable state a generation has committed exactly one revision per snapshot dialogue, in order and against the source it saw, if it succeeded, and none otherwise; it has committed any if and only if it succeeded |
| TranslationWorker.CommitTakesEffect | apps/api/src/modules/localization/application/translation-generation-worker.service.ts:491-561 | after a commit each dialogue of the snapshot has its generated text selected, as a draft against the active source |
| TranslationWorker.AtMostOneCommit | apps/api/src/modules/localization/application/translation-generation-worker.service.ts:447-587 | of all completions in a run at most one takes effect, and one did exactly when the generation became succeeded |
| TranslationWorker.EndedIsFinal | apps/api/src/modules/localization/application/translation-generation-worker.service.ts:563-581 | SUCCEEDED and FAILED are absorbing, and commit nothing more |
| TranslationWorker.SupersededIsInert | apps/api/src/modules/localization/application/translation-generation-worker.service.ts:456-468 | a worker whose lease was given up changes nothing by committing, failing or beating, at any later time |
| TranslationWorker.StepCounts | apps/api/src/modules/localization/application/translation-generation-worker.service.ts:528-561 | whatever the step, commits included, a translation's counter rises by exactly one when its selection changes and stays otherwise |
| TranslationWorker.NoEditIsLost | apps/api/src/modules/localization/application/translation-generation-worker.service.ts:668-690 | a commit takes effect only if, at every moment since the request, each translated dialogue had the same translation and source selection, and each other dialogue had no translation |
| TranslationWorker.CommitSeesRequest | apps/api/src/modules/localization/application/translation-generation-worker.service.ts:603-666 | a commit takes effect only while scene revision, source revisions and the glossary are those of the request |
| TranslationWorker.CommitsExactly | apps/api/src/modules/localization/application/translation-generation-worker.service.ts:447-690 | a commit goes through exactly if the worker holds the lease, scene, sources, glossary and translations are those of the request, in whatever editorial state, and every dialogue has a result; otherwise it changes nothing |
| TranslationWorker.RequestsExactly | apps/api/src/modules/localization/application/localization.service.ts:1817-1876 | a generation is queued exactly for a selected scene of 1 to 200 dialogues with sources, at most 200 glossary terms and at least one attempt |
| TranslationWorker.SortedListsCompareContents | apps/api/src/modules/localization/application/translation-generation-worker.service.ts:648-665 | comparing sorted lists compares the glossary selections up to order, and nothing less |
| TranslationWorker.ReviewIsFresh | apps/api/src/modules/localization/application/localization.service.ts:1178-1186 | in every reachable state a translation in review or approved was written against the active source revision |
| TranslationWorker.ReviewedPairWasSent | apps/api/src/modules/localization/application/localization.service.ts:1139-1227 | what stands in review or approved is the pair of target and source revision that some step sent to review: after every step since, the same two were selected and under review |
| TranslationWorker.ExecutionsAreBounded | apps/api/src/modules/localization/application/translation-generation-worker.service.ts:339-363 | executions of a generation are exactly the attempts it counts, and at most its limit |
| TranslationWorker.RunsAreBounded | apps/api/src/modules/localization/application/translation-generation-worker.service.ts:310-370 | in any run at most 2 * maxAttempts claims, failures and commits of a generation take effect, and no more than a claim and an end for each attempt left to it |
| TranslationWorker.StalledWorkersFailTheGeneration | apps/api/src/modules/localization/application/translation-generation-worker.service.ts:692-771 | the bound is reached: workers that always stall drive any unfinished generation to FAILED with every attempt and every step that was left |
| TranslationWorker.BackoffTotal | apps/api/src/modules/localization/application/translation-generation-worker.service.ts:737-751 | the delays before n retries add up to 5000 * (2^n - 1) milliseconds |
| TranslationWorker.BackoffIsBounded | apps/api/src/modules/localization/application/translation-generation-worker.service.ts:737-751 | the delays of a generation total at most 5000 * (2^(maxAttempts - 1) - 1) milliseconds |
| LocalizationStore.Store.UpdateSourceDialogue | apps/api/src/modules/localization/application/localization.service.ts:793-876 | appends a source revision, selects it under the expected counter and reopens the dialogue's translations, or changes nothing |
| LocalizationStore.Store.SelectSourceRevision | apps/api/src/modules/localization/application/localization.service.ts:912-983 | selects another revision of the dialogue under the expected counter and reopens its translations, or changes nothing |
| LocalizationStore.Store.ReopenTranslationsAfterSourceChange | apps/api/src/modules/localization/application/localization.service.ts:2171-2191 | every selection of the dialogue, on every track, becomes a draft with its counter raised |
| LocalizationStore.Store.UpdateTranslation | apps/api/src/modules/localization/application/localization.service.ts:985-1137 | appends a revision against the active source and selects it as a draft, creating the translation if there is none, or changes nothing |
| LocalizationStore.Store.UpdateTranslationState | apps/api/src/modules/localization/application/localization.service.ts:1139-1227 | moves along the allowed transitions under the expected counter, to review or approval only against the active source, or changes nothing |
| LocalizationStore.Store.SelectTranslationRevision | apps/api/src/modules/localization/application/localization.service.ts:1278-1365 | selects another revision of the translation as a draft under the expected counter, or changes nothing |
| LocalizationStore.Store.CreateGeneration | apps/api/src/modules/localization/application/localization.service.ts:1751-2006 | queues a generation with the snapshot of the scene as it is now, and its event, or changes nothing |
| LocalizationStore.Store.ClaimGeneration | apps/api/src/modules/localization/application/translation-generation-worker.service.ts:310-370 | the transaction is the claim step; a token and an execution are returned exactly if the generation waited |
| LocalizationStore.Store.CompleteGeneration | apps/api/src/modules/localization/application/translation-generation-worker.service.ts:447-601 | the transaction is the commit step of which CommitsExactly speaks: all dialogues are written, or none; a refusal names the first objection |
| LocalizationStore.Store.WriteResult | apps/api/src/modules/localization/application/translation-generation-worker.service.ts:491-561 | the loop over dialogues builds exactly the rows of the commit, and stops exactly if a result is missing or a target is stale |
| LocalizationStore.Store.AssertSelectionsCurrent | apps/api/src/modules/localization/application/translation-generation-worker.service.ts:603-666 | decides whether scene, sources and glossary are those of the snapshot |
| LocalizationStore.Store.AssertTargetSelectionCurrent | apps/api/src/modules/localization/application/translation-generation-worker.service.ts:668-690 | decides whether the translation is the one the snapshot saw, or still absent |
| LocalizationStore.Store.FailGeneration | apps/api/src/modules/localization/application/translation-generation-worker.service.ts:692-771 | the transaction is the failure step, within the lease for a worker and past it for recovery |
| LocalizationStore.Store.Heartbeat | apps/api/src/modules/localization/application/translation-generation-worker.service.ts:773-797 | extends the lease under a held token and nothing else |
| LocalizationStore.Store.RecoverExpiredGenerations | apps/api/src/modules/localization/application/translation-generation-worker.service.ts:231-274 | the two loops over the rows the queries found are the recovery pass of which NothingIsStranded speaks |
| ResultCheck.AssertCompleteResult | apps/api/src/modules/localization/infrastructure/http-translation-executor.adapter.ts:146-166 | accepts exactly results that are an arrangement of the commanded pairs, with distinct dialogue ids and non-empty revision ids; the final check is never what rejects |
| ResultCheck.AcceptedAnswersOnce | apps/api/src/modules/localization/infrastructure/http-translation-executor.adapter.ts:146-166 | an accepted result answers each commanded dialogue with its revision, and no dialogue twice |
| Tiling.SizesInRange | apps/api/src/modules/media-ingest/application/media-ingest.service.ts:533-540 | every expected part size is between one byte and the part size |
| Tiling.SizesSumToFile | apps/api/src/modules/media-ingest/application/media-ingest.service.ts:114 | with ceil(byteSize / partSize) parts the expected sizes add up to the file |
| Tiling.SlicesPartitionFile | apps/web/src/features/uploads/multipart-upload.ts:96-97 | each byte of the file is in exactly one slice, and the slices lie inside the file |
| Tiling.AssertCompleteManifest | apps/api/src/modules/media-ingest/application/media-ingest.service.ts:507-531 | accepts exactly parts 1, 2, 3 and so on, each of its expected size if stated, and otherwise reports the first objection |
| Tiling.CompleteExactly | apps/api/src/modules/media-ingest/application/media-ingest.service.ts:507-531 | a complete manifest lists every part in turn, each of the part size and the last of what is left, where sizes are stated |
| Tiling.SortedManifestAccepted | apps/api/src/modules/media-ingest/application/media-ingest.service.ts:248-254 | since the API sorts first, exactly the manifests with each part once are accepted, in any order |
| Manifest.UploadRow.PersistCompletionManifest | apps/api/src/modules/media-ingest/application/media-ingest.service.ts:337-375 | stores the first manifest, and accepts a later one exactly if numbers and entity tags agree with it or the upload is completed |
| Manifest.FirstIsStored | apps/api/src/modules/media-ingest/application/media-ingest.service.ts:337-375 | the first manifest is stored as it is and the upload is completing |
| Manifest.OthersAreRefused | apps/api/src/modules/media-ingest/application/media-ingest.service.ts:337-375 | a manifest that differs in length, or in a number or tag, is refused and changes nothing |
| Manifest.RepeatsAreAccepted | apps/api/src/modules/media-ingest/application/media-ingest.service.ts:337-375 | once a manifest got through, the same numbers and tags get through at any later time |
| Manifest.CompletedAcceptsAny | apps/api/src/modules/media-ingest/application/media-ingest.service.ts:337-375 | a completed upload accepts any manifest and keeps its own |
| Manifest.ManifestIsStable | apps/api/src/modules/media-ingest/application/media-ingest.service.ts:337-375 | a stored manifest never changes, whatever completions and status changes follow |
| Manifest.CompletionsAgree | apps/api/src/modules/media-ingest/application/media-ingest.service.ts:337-375 | any two completions that get through before the upload is completed carry the same tags for the same parts |
| WorkerPool.PoolRunsEachItemOnce | apps/web/src/features/uploads/multipart-upload.ts:185-198 | whatever the interleaving and failures: claims are made once, in list order; no item is awaited twice; at most min(concurrency, n) are awaited; and when all workers ended without failure every item that is not skipped was run |
| WorkerPool.PoolSettles | apps/web/src/features/uploads/multipart-upload.ts:185-198 | the pool settles: task ends that find a worker awaiting count the items that finished or failed, at most all of them; it is settled exactly when no worker awaits, and so after that many ends at the latest |
| WorkerPool.NoWorkerRunsNothing | apps/web/src/features/uploads/multipart-upload.ts:197 | with concurrency 0 the pool settles without running anything |
| WorkerPool.Pool.GoOn | apps/web/src/features/uploads/multipart-upload.ts:191-196 | a worker's loop claims the next item that is not skipped, or ends at the end of the list |
| WorkerPool.Pool.constructor | apps/web/src/features/uploads/multipart-upload.ts:197 | min(concurrency, n) workers start, each with its first claim |
| WorkerPool.Pool.EndTask | apps/web/src/features/uploads/multipart-upload.ts:191-196 | when a task ends its worker goes on, or stops if it threw, and the others are untouched |
| MovieUpload.NothingIsResent | apps/web/src/features/uploads/multipart-upload.ts:71-79 | a part under way is neither in the checkpoint nor completed, and no two workers have the same part |
| MovieUpload.SignsNextTwelve | apps/web/src/features/uploads/multipart-upload.ts:88-96 | a batch takes the next twelve missing parts, or those that are left, starts the first four and clears the progress |
| MovieUpload.EntriesHoldLast | apps/web/src/features/uploads/multipart-upload.ts:71-73 | from any stored list each number is resumed once, with the last part stored for it |
| MovieUpload.TransferredIsBounded | apps/web/src/features/uploads/multipart-upload.ts:100-105 | completed bytes and bytes under way never exceed the file size |
| MovieUpload.FinalManifestAccepted | apps/web/src/features/uploads/multipart-upload.ts:124-131 | when all batches are done the completed parts carry the whole file and the sorted manifest is accepted by the API |
| UploadSession.Uploader.constructor | apps/web/src/features/uploads/multipart-upload.ts:71-79 | a run resumes with whatever the checkpoint holds as completed and the others, in order, missing, and is sound if those are parts of this file |
| UploadSession.Uploader.SignNextBatch | apps/web/src/features/uploads/multipart-upload.ts:88-96 | the next twelve missing parts start in a pool of four |
| UploadSession.Uploader.PartUploaded | apps/web/src/features/uploads/multipart-upload.ts:111-119 | a finished part leaves the progress map and joins the completed ones, which become the stored checkpoint if storage accepts it, and its worker goes on |
| UploadSession.Uploader.ReportProgress | apps/web/src/features/uploads/multipart-upload.ts:97-106 | a progress report sets the bytes of its part and nothing else |
| UploadSession.Uploader.PartFailed | apps/web/src/features/uploads/multipart-upload.ts:191-196 | a part that is given up ends its worker, and the others and the checkpoint stay as they are |
| UploadSession.Uploader.Manifest | apps/web/src/features/uploads/multipart-upload.ts:122-131 | the parts sent are all completed parts, ascending, and complete |
| Checkpoints.InvStep | apps/web/src/features/uploads/multipart-upload.ts:46-131 | every session stays sound and the record stays a checkpoint of this file, whatever sessions are left over |
| Checkpoints.RecordGrows | apps/web/src/features/uploads/multipart-upload.ts:111-119 | over any sequence of pauses and resumes, and whether or not single saves fail, the record only grows, if only the newest session finishes parts |
| Checkpoints.RecordedAtOpening | apps/web/src/features/uploads/multipart-upload.ts:71-79 | whatever sessions are left over, a session opened while a part is recorded never so much as starts that part |
| Checkpoints.RecordedPartsAreNotResent | apps/web/src/features/uploads/multipart-upload.ts:71-79 | if only the newest session finishes parts, no session finishes the upload of a recorded part again |
| Checkpoints.RecordedPartsAreNotStarted | apps/web/src/features/uploads/multipart-upload.ts:71-79 | if only the newest session finishes parts, the newest session does not so much as start a recorded part |
| Checkpoints.RecordKeptExactly | apps/web/src/features/uploads/multipart-upload.ts:111-119 | along any run, leftover sessions and failing saves included, every step keeps every recorded part if and only if each saving session knew, or was recording, every part recorded at that moment |
| Checkpoints.KeptBySchedule | apps/web/src/features/uploads/multipart-upload.ts:111-119 | from the first visit on, leftover sessions and failing saves included, no step loses a recorded part if and only if at each save every part that a session finished and saved since the saving one was opened is completed by the saving one or is the one being saved |
| Checkpoints.KeptToTheEnd | apps/web/src/features/uploads/multipart-upload.ts:111-119 | if no step of a run loses a recorded part, what was recorded before it is recorded after it |
| Checkpoints.LeftoverShrinksRecord | apps/web/src/features/uploads/multipart-upload.ts:185-198 | a reachable state in which the save of a leftover worker removes a recorded part |
| JsonText.StringRoundTrip | apps/api/src/modules/localization/application/localization-values.ts:10-17 | a quoted string is read back exactly, lone surrogates and control characters included, whatever follows it |
| JsonText.RenderRoundTrip | apps/api/src/modules/localization/application/localization-values.ts:10-17 | a value's text is read back as the value, with its property order, and what follows it |
| JsonText.RenderInjective | apps/api/src/modules/localization/application/localization-values.ts:10-17 | different values have different texts |
| JsonText.RenderIsPrintable | apps/api/src/modules/localization/application/localization-values.ts:10-17 | whatever a value's strings hold, its text has no control character and no lone surrogate |
| JsonText.PlainTextIsKept | apps/api/src/modules/localization/application/localization-values.ts:10-17 | printable text without quotes and backslashes is written as it is |
| JsonText.EscapesAreShort | apps/api/src/modules/localization/application/localization-values.ts:10-17 | a unit that has a letter is escaped by two units, and another takes one or six |
| JsonText.SurrogateHalves | apps/api/src/modules/localization/application/localization-values.ts:10-17 | surrogates are told by their leading six bits |
| CanonicalJson.StableIsNormal | apps/api/src/modules/localization/application/localization-values.ts:10-17 | stableJson writes the value with all properties in code unit order |
| CanonicalJson.StableJsonTellsValue | apps/api/src/modules/localization/application/localization-values.ts:6-17 | two values have the same stable text exactly when they are equal up to property order |
| CanonicalJson.WorkerTextMatches | apps/api/src/modules/localization/application/translation-generation-worker.service.ts:828-844 | the worker recomputes the API's text exactly when, at every object, both orders place each pair of keys alike |
| CanonicalJson.ArrayIndexExactly | apps/api/src/modules/localization/application/translation-generation-worker.service.ts:837-841 | the keys enumerated first are exactly the numbers below 2^32 - 1 as written in decimal |
| CanonicalJson.SnapshotRehashes | apps/api/src/modules/localization/application/translation-generation-worker.service.ts:407-413 | a stored snapshot gives the original's text exactly when it is unmodified up to property order |
| CanonicalJson.IndexKeysDisagree | apps/api/src/modules/localization/application/translation-generation-worker.service.ts:834-844 | with keys "9" and "10" the texts differ although the comparators agree |
| StableSort.SortTwice | apps/api/src/modules/localization/application/translation-generation-worker.service.ts:837-841 | sorting entries and then enumerating index keys first is one stable sort by the refined order |
| StableSort.SortTellsOrder | apps/api/src/modules/localization/application/translation-generation-worker.service.ts:837-841 | equal sorted lists of distinct elements mean the two comparators agree on every pair |
| Sorting.LexDecides | apps/api/src/modules/localization/application/localization-values.ts:10-17 | texts are ordered by the first unit that differs, or else by length |
| Pagination.RowsAfter | apps/api/src/modules/localization/application/localization.service.ts:2253-2262 | a cursor's condition selects exactly the rows after its row in the first snapshot, whatever revisions were appended since |
| Pagination.PageAt | apps/api/src/modules/localization/application/localization.service.ts:2264-2287 | a page has the next limit rows, and a cursor exactly when rows remain |
| Pagination.ResourceIsFirstParent | apps/api/src/modules/localization/application/localization.service.ts:2289-2299 | a row belongs to its scene, or else its dialogue, or else its translation, or else its glossary entry |
| Pagination.NextNumber | apps/api/src/modules/localization/application/localization.service.ts:2085-2115 | a new revision's number exceeds every number so far by at least one, and one of them by exactly one |
| Pagination.FollowingReadsTheSnapshot | apps/api/src/modules/localization/application/localization.service.ts:176-282 | following cursors returns every row of the first snapshot once and in order, in max(1, ceil(n / limit)) pages, and none appended since |
| Pagination.OtherListingsAcceptTheirCursors | apps/api/src/modules/localization/application/localization.service.ts:2289-2299 | scene lists and the histories of scenes, dialogues and glossary entries build the cursors their readers accept, so FollowingReadsTheSnapshot applies |
| Pagination.TranslationSecondPageRejected | apps/api/src/modules/localization/application/localization.service.ts:1250-1276 | the second page of a translation's history is refused when dialogue and translation ids differ |
| Pagination.TranslationHistoryReadable | apps/api/src/modules/localization/application/localization.service.ts:2289-2299 | a translation's history can be read to its end exactly if it fits one page or the two ids are equal |
| Uuid.Generator.Next | apps/api/src/shared/uuid.ts:11-29 | moves the clock state by one tick and returns the text of that state's sixteen bytes, or fails when the timestamp no longer fits |
| Uuid.TickCounts | apps/api/src/shared/uuid.ts:12-19 | a call after the clock advanced takes the reading and a drawn sequence; any other counts timestamp and sequence up by one as one number |
| Uuid.WriteTimestamp | apps/api/src/shared/uuid.ts:22 | writes the timestamp as six big-endian bytes and touches no other byte |
| Uuid.LayoutFields | apps/api/src/shared/uuid.ts:22-25 | version 7, variant 10, timestamp and sequence can be read from the bytes |
| Uuid.LayoutDraws | apps/api/src/shared/uuid.ts:21-25 | the other 62 bits are those drawn |
| Uuid.LayoutOrder | apps/api/src/shared/uuid.ts:22-25 | a later clock state gives a greater byte string, whatever the random bytes |
| Uuid.TextReadsBack | apps/api/src/shared/uuid.ts:27-28 | the text is 36 characters with four dashes, and its digits read back as the bytes |
| Uuid.TextOrder | apps/api/src/shared/uuid.ts:27-28 | the 8-4-4-4-12 hexadecimal texts are ordered as the byte strings are |
| Uuid.IdentifiersIncrease | apps/api/src/shared/uuid.ts:11-29 | of any two calls, under any clock readings, the later identifier is greater, as bytes and as text, while timestamps fit |
| Uuid.DriftBound | apps/api/src/shared/uuid.ts:12-19 | the embedded time is never behind the greatest reading, and d ticks ahead only if 4096 * d <= n + 4095 |

## Left out

- HTTP, S3, Redis, BullMQ, FFmpeg, scratch files, logging, metrics, audit rows, transition rows, React components and
  environment validation. Executors are arbitrary results or errors; the database's clock is any number.
- Transactions are atomic steps: retries after serialization failures, row locks and SKIP LOCKED are not modelled.
  The `limit` and the order of the media recovery's queries are not either.
- Tenancy (organization, project, workspace) and the ids' textual form. Ids are positions, ranks or counter values.
- SHA-256, base64url and `JSON.parse`. Results about hashes are stated of the hashed text. Numbers are integers.
- Snapshot parsing by the schema validators; a snapshot that does not parse is a failure step.
- Idempotency keys and repeated requests, which return the existing row.
- Size limits on source texts when a generation is requested, and text normalization; texts are taken as normalized.
- The speech stages started by a completed preparation, artifact rows, probe rows and the project's status.
- Scene and glossary editing beyond which revisions are selected; a selection changes to any value at any time.
- Revision numbers in `Editorial`: revisions are known by their position in an append-only log. `Pagination` has them.
- `batches`, percentages, timecodes, limiters, bounded readers, stream selection: they would add easy members.
- Upload status being final, and real-time claims about leases: the code does not ensure them.
- Partition.PartitionLocalizationScenes: ids are ranks in the order the comparator gives their text.
- MediaLease.NoStrandedWork: one job, so the rows per pass are not counted; delivery to a worker is the queue's promise.
- TranslationWorker.NoEditIsLost: for a dialogue without a translation the source may change and change back in between.
- CanonicalJson.WorkerTextMatches: `localeCompare` is any total preorder on keys, possibly with ties.
- UploadSession.Uploader.PartUploaded: the bytes and retries of a single part upload are outside the model.
- SourcePreparation.Store.RecoverExpiredAttempts: one job, so the number of jobs a pass takes at most is left out.
- GenerationLease.NothingIsStranded: that a delivered event reaches a worker is the queue's promise.
- LocalizationStore.Store.RecoverExpiredGenerations: what the two queries find is given to it.
- LocalizationStore.Store.CreateGeneration: repeated idempotency keys and size limits on source texts are left out.
- CanonicalJson.SnapshotRehashes: the schema parse between storage and hashing is left out; it keeps the values.
- Partition.GreedyIsMinimalInAnyOrder: sufficient only; FewestSoFarExactly is exact, for every moment of the loop.
- Checkpoints.RecordKeptExactly: removing the record after a completed upload is left out; KeptBySchedule reads the
  condition off the schedule.
- Checkpoints.RecordedPartsAreNotResent: only if the newest session alone finishes parts; RecordedAtOpening is
  what holds of any run.
