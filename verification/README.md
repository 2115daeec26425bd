# Verification of the agent platform's protocols

This Dafny project models the parts of the agent platform whose correctness needs an argument over runs, loops or
graphs, and proves what they promise. Each module follows one component.

* **Sub-agent groups** (`DependencyGraph`, `GroupScheduler`, `GroupBarrier`, `GroupRuns`, `GroupExecution`,
  `GroupVerdict`, `GroupOutcome`). The dependency check is the three-colour search of the source, proved to accept exactly the
  repetition-free, acyclic requests. The scheduler is a machine of atomic steps in which everything the source leaves
  open is nondeterministic: the moment of cancellation, the choice of a select, the end of an execution, failing saves
  and all work of other groups in the same queue. Over every run of that machine the barrier neither sticks nor spins,
  each member sends exactly one result, and nothing executes above an unfinished or failed dependency. A group is cancelled
  exactly from outside or by what its policy says of the results collected so far, and one that is not cancelled executes
  exactly the members whose dependencies completed. The accounting
  and the final branch chain are proved to mean what the three failure policies say.
* **Artifacts** (`ArtifactModel`, `ArtifactRepository`, `ArtifactService`, `RowVersions`, `SecretScan`,
  `SecretRules`). Rows, objects
  and the delete outbox are the fields of the repository and store classes; the service calls run on top of them while
  every single repository or store call may be refused, or take effect and still be reported as failed. Object safety
  and the quota hold after every sequence of calls. `RowVersions` drops the atomicity of the calls: snapshots may be
  arbitrarily old, and only the version compare-and-swap protects a row. `SecretScan` models the streaming scan for any
  rules, with word boundaries that the edges of a window can make or spoil; `SecretRules` adds the six rules of the code and
  characterises exactly which of their matches no way of cutting a stream can hide.
* **Kernel** (`SessionLocks`, `ModelStream`, `ContextTrim`). Reference-counted session locks under every schedule, the
  stacked retry and context-recovery wrappers over any provider and any consumer, and the trimming of the history in
  place together with the guards around it, in 64-bit arithmetic where the code adds without saturating.
* **Replies and quotas** (`Segmentation`, `ProactiveQuota`). Cutting a reply loses no visible character and keeps fenced
  code, links, inline code, tables and list items whole; a rolled-back reservation leaves no trace in any later decision under the same settings.
* **Selection and registries** (`WorkingSet`, `ToolRegistry`, `Retrieval`, `CommandRegistry`, with `Ordering`, `Text`
  and `Wrappers` for sorting, strings and shared types).

Where the code falls short of its own description, the code is modelled and the difference is a theorem:

* Fenced code of two lines or more is always whole. A fence of a single line can only be the last line of a reply
  (`Segmentation.OneLineFenceIsLast`); it is not recognised as code and treated like any other paragraph of one line, which
  is whole if and only if it was not cut (`Segmentation.SemanticSegments`). An ordinary one, with three backticks and no
  other, has no place where it may be cut (`Segmentation.OrdinaryFenceIsNeverCut`); one that opens with four backticks and
  goes on with ordinary characters is cut as soon as two messages are allowed, the line is long enough and a sentence ends
  in it, and in no other case (`Segmentation.OneLineFenceIsCut`).
* The comment on the streaming scan promises that split patterns are still detected. An upload is flagged however it is cut
  if and only if one of the following lies in its first two mebibytes: any match of `private_key`, `aws_access_key` or
  `github_token`; a match of `openai_key` or `slack_token` with a word byte near, that is, among its bytes from the least
  length on or right behind it, and within 1025 bytes of its beginning; or a match of `named_secret` of at most 1025 bytes
  (`SecretRules.FlaggedForEveryCut`). What is missed otherwise are tokens with a thousand hyphens in a row, behind which there
  is no word boundary (`SecretRules.DashesHideTokens`), and passwords behind as much white space
  (`SecretRules.LongMatchIsMissed`). In the other direction a cut can add matches, because the edge of a window counts as a
  boundary: AKIA with more than sixteen capitals is not a key in one shot and is flagged when it is cut behind the sixteenth
  (`SecretRules.EdgesAddMatches`).
* The guard before a provider call adds with wrap-around. It agrees with the warning in the manifest, which is exact, unless
  the sum leaves the integer range (`ContextTrim.GuardAgrees`); a saturated estimate is admitted untouched
  (`ContextTrim.Request.BeforeModelCall`). This is a matter of arithmetic only: it takes for instance 2^53 file references
  (`ContextTrim.FileReferencesCost`).
* A rollback forgets the grant before the withdrawn one. As long as the settings stay the same this is invisible
  (`ProactiveQuota.RollbackAsIfNever`); under new settings it is if and only if a later grant has taken the place of the
  withdrawn one, the new cooldown is over for the grant before it, or the window stays full until then
  (`ProactiveQuota.RollbackUnderNewSettings`).
* Registering a tool again under another name leaves the old name in the index, where it blocks every other tool for good,
  although no entry carries it (`ToolRegistry.Registry.Register`, `ToolRegistry.Registry.Rename`). After a successful selection
  a required name is answered if and only if the catalogue answers it, so that names nobody goes by are not missed
  (`ToolRegistry.Select`). The candidates' comparison is a sorting order if and only if no tie between two foreign sources
  involves two tools of one of them (`ToolRegistry.WeakOrderIffTiesAreSimple`).
* The comment in the cache path says that an entry is dropped when the access check fails. It stays if and only if nothing is
  kept of what the sources find: no evidence, none asked for, or a best item larger than the byte budget; otherwise it is
  replaced (`Retrieval.Orchestrator.RefusedSearch`). One that stays is served again once access is granted
  (`Retrieval.Orchestrator.RefusedEntryStays`).
* Two different sessions share a lock if and only if their names overlap around a NUL character (`SessionLocks.KeysMeet`);
  this needs one in a user name and one in a session name. With a conversation service the session name is the identifier of
  a stored conversation, which the service makes of a prefix and hexadecimal digits unless the creator of the conversation
  supplies one, so that the case is out of reach there; without it both names come from the caller, trimmed of white space but
  otherwise as they are.

Run `dafny verify dfyconfig.toml` to check the whole project.

## Model

| member | source | states |
|---|---|---|
| `DependencyGraph.ValidateDependencyGraph` | `internal/agent/subagent_runtime.go:1416-1464` | accepts a request if and only if no run repeats a dependency and the dependency relation has no cycle; reports a repetition before a cycle; every accepted request has a ranking that puts each dependency strictly below its dependant |
| `DependencyGraph.AddDependencies` | `internal/agent/subagent_runtime.go:1425-1433` | reports a repetition exactly when there is one, and otherwise adds the dependencies to this run and to no other |
| `DependencyGraph.Search.Visit` | `internal/agent/subagent_runtime.go:1442-1457` | three-colour search: success ranks the name and everything below it, leaves the names on the path as they were and forgets no finished name; failure exhibits a cycle |
| `DependencyGraph.SearchAll` | `internal/agent/subagent_runtime.go:1458-1462` | started from every run, the search succeeds only with a ranking of all of them and fails only on a cycle |
| `DependencyGraph.RankingExcludesCycles` | `internal/agent/subagent_runtime.go:1442-1462` | a ranked plan has no closed walk, so an accepted plan is acyclic in the relational sense, independently of the search |
| `DependencyGraph.NamesClash` | `internal/agent/subagent_runtime.go:1419-1424` | when two requests go by the same name: given names are compared trimmed, missing ones never clash, and a given one clashes with a missing one only by spelling its position |
| `GroupBarrier.InitialHolds` | `internal/agent/subagent_runtime.go:570-575` | the barrier starts in a state that satisfies its invariant |
| `GroupBarrier.StepKeeps` | `internal/agent/subagent_runtime.go:576-665` | every step of scheduling, collecting, cancelling, queueing and executing keeps the invariant: each run is in exactly one place, work handed over has all dependencies completed, results are sound, bounds hold and a finished pass overlooked nothing |
| `GroupBarrier.Census` | `internal/agent/subagent_runtime.go:519-519` | conservation counted: pending, queued, waiting, executing, buffered and collected runs add up to the size of the group, so the result buffer never exceeds it |
| `GroupRuns.RunKeeps` | `internal/agent/subagent_runtime.go:570-665` | the invariant holds in every state of every run of the machine |
| `GroupRuns.MissingResultsAreProducible` | `internal/agent/subagent_runtime.go:641-665` | while results are missing, one is buffered, on its way through queue and workers, or produced by the next pass of scheduleReady |
| `GroupRuns.SendsNeverBlock` | `internal/agent/subagent_runtime.go:519-519` | as long as a run has no result yet there is room in the result buffer |
| `GroupRuns.WorkersMove` | `internal/agent/subagent_runtime.go:864-913` | whatever fills the queue and the workers, some step moves it on |
| `GroupRuns.BarrierNeverSticks` | `internal/agent/subagent_runtime.go:641-665` | no deadlock: until the barrier is passed, a step of the group or of the work ahead of it is enabled |
| `GroupRuns.OwnStepDescends` | `internal/agent/subagent_runtime.go:588-665` | every step of the group itself lowers a measure that foreign work and cancellation do not raise |
| `GroupRuns.RunsAreBounded` | `internal/agent/subagent_runtime.go:588-665` | no livelock: the number of the group's own steps in any run is bounded by a polynomial in the number of its members, whatever else uses the queue |
| `GroupRuns.BarrierCollectsEachRunOnce` | `internal/agent/subagent_runtime.go:641-665` | behind the barrier the collected results are a permutation of the runs and nothing of the group is left anywhere |
| `GroupRuns.EachRunSendsOneResult` | `internal/agent/subagent_runtime.go:883-913` | over every run of the machine each member sends at most one result, sent results are never taken back, and each has sent exactly one when the barrier is passed |
| `GroupRuns.ClosureIsCompleted` | `internal/agent/subagent_runtime.go:602-640` | below a run that has started executing, every dependency reached by any chain was collected as completed |
| `GroupRuns.CompletedClosure` | `internal/agent/subagent_runtime.go:602-640` | in every run of the machine the whole transitive dependency closure of a completed run is completed |
| `GroupRuns.FailedDependencyPreventsExecution` | `internal/agent/subagent_runtime.go:602-619` | a run above a dependency that ended otherwise than completed executes at no time, neither before nor after that result is recorded |
| `GroupExecution.UnexecutedIsExplained` | `internal/agent/subagent_runtime.go:602-640` | over every run of the machine: a result whose run never started is Failed with a dependency recorded as not completed, or the group is cancelled; Cancelled needs a cancellation and Expired a deadline; a run that a worker gave up carries the group's error |
| `GroupExecution.CancelledExactlyByPolicy` | `internal/agent/subagent_runtime.go:641-665` | over every run: the group is cancelled if and only if it was cancelled from outside, or all_or_nothing has collected a loss, or require_minimum the minimum; and once the policy has ended it no run is left pending |
| `GroupExecution.CollectFollowsPolicy` | `internal/agent/subagent_runtime.go:645-653` | receiving the deciding result cancels the group and settles every pending run at once; any other result leaves the error and the pending runs as they are |
| `GroupExecution.NoticedCancelEndsPending` | `internal/agent/subagent_runtime.go:654-664` | a cancellation that the barrier has noticed leaves no pending run |
| `GroupExecution.SettlePendingEnds` | `internal/agent/subagent_runtime.go:576-587` | cancelPending ends exactly the pending runs, as Cancelled, or as Failed when that was not saved |
| `GroupExecution.AbortedRunEnds` | `internal/agent/subagent_runtime.go:626-638` | a run that cannot be queued because of the cancellation is Expired on a deadline and Cancelled otherwise, or Failed when that was not saved |
| `GroupExecution.ExecutesWhatItCan` | `internal/agent/subagent_runtime.go:588-665` | behind the barrier of a group that was not cancelled and not ended by its policy, a member was executed if and only if all its dependencies completed, and every other one is Failed |
| `GroupExecution.BestEffortExecutesAll` | `internal/agent/subagent_runtime.go:588-665` | best_effort without a cancellation from outside executes every member whose dependencies completed |
| `GroupExecution.CancelledGroupAdmitsNobody` | `internal/agent/subagent_runtime.go:883-913` | after a cancellation no further run reaches the semaphore, and the error of the group stays |
| `GroupOutcome.AcceptedPlanIsRanked` | `internal/agent/subagent_runtime.go:522-558` | the ranking found by the dependency check is a rank of the plan that the scheduler works on |
| `GroupOutcome.TranslationIsOnlyOne` | `internal/agent/subagent_runtime.go:522-541` | as names are unique, there is exactly one way to replace them by runs, and it exists whenever the targets do |
| `GroupOutcome.AcceptedPlanNeverSticks` | `internal/agent/subagent_runtime.go:522-665` | the plan that a ranked request with existing targets is translated to runs without deadlock under every interleaving, for every policy and all positive bounds |
| `GroupOutcome.ValidateGroupRequest` | `internal/agent/subagent_runtime.go:1342-1411` | the naming part of the request validation accepts exactly unique names, existing dependencies, no repetition and no cycle; the plan of every accepted request never sticks |
| `GroupOutcome.CollectedStay` | `internal/agent/subagent_runtime.go:645-648` | what the barrier has collected stays collected, in the order of arrival |
| `GroupOutcome.MinimumSettlesVerdict` | `internal/agent/subagent_runtime.go:651-653` | require_minimum: once the minimum was collected, cancelling the rest cannot spoil the verdict; a group that never collects it ends as failed, cancelled or expired |
| `GroupOutcome.OneFailureSettlesVerdict` | `internal/agent/subagent_runtime.go:649-650` | all_or_nothing: the verdict is not completed if and only if at some time a run was collected that did not complete |
| `GroupOutcome.VerdictOfResults` | `internal/agent/subagent_runtime.go:673-685` | completed and cancelled are the verdicts of groups whose collected results all are; expired that of a group without success in which one expired |
| `GroupVerdict.RecalculateGroup` | `internal/agent/subagent_runtime.go:1218-1252` | every run is counted under its state; a run without a result counts as released if and only if it has no StartedAt, and as unknown otherwise |
| `GroupVerdict.CloseGroup` | `internal/agent/subagent_runtime.go:667-685` | a group closes with the recalculated counters and a status that follows its policy: completed iff all completed, partial iff the policy is met otherwise, expired iff none completed and one expired, cancelled iff all were cancelled |
| `GroupVerdict.CountersPartition` | `internal/agent/subagent_runtime.go:1218-1252` | the five counters add up to the number of runs, and every lost run is either given back or of unknown cost |
| `GroupVerdict.BarrierAccounting` | `internal/agent/subagent_runtime.go:1218-1252` | at the barrier Reserved = Consumed + Released + Unknown, Runs = Succeeded + Failed, and nothing is queued or running |
| `GroupVerdict.VerdictFollowsPolicy` | `internal/agent/subagent_runtime.go:673-685` | the same for the branch chain as a function: each final status is characterised by the policy and the statuses of the runs; all_or_nothing is never partial |
| `GroupVerdict.VerdictIgnoresOrder` | `internal/agent/subagent_runtime.go:667-685` | the verdict does not depend on the order in which the runs finished |
| `GroupVerdict.RecoverGroup` | `internal/agent/subagent_runtime.go:786-823` | after a restart every run without a terminal status is expired, terminal runs are untouched, and the group is partial exactly when a run had completed |
| `ArtifactModel.CountsRelate` | `internal/artifact/memory_maintenance.go:47-61` | the two reference counts: the active count never exceeds the other, and a marked row that sees a count of at most one knows that no active reference is left |
| `ArtifactModel.UnreferencedIsRemovable` | `internal/artifact/maintenance.go:462-592` | removing an object without active references breaks no promise to a reader |
| `ArtifactModel.ReferencedIsNot` | `internal/artifact/artifact.go:457-483` | removing the object of a published row breaks one, and the active count sees that row |
| `ArtifactModel.UsageAfterPublish` | `internal/artifact/memory_maintenance.go:23-45` | publishing a row raises the de-duplicated footprint by its object's size, unless the object was already accounted for |
| `ArtifactRepository.MemoryRepository.Update` | `internal/artifact/memory_repository.go:36-54` | the version compare-and-swap: under any failure nothing changes or the row replaces its direct predecessor, which has the expected version; without one it is replaced exactly when it may be, and the caller learns it |
| `ArtifactRepository.MemoryRepository.CountByStorageKey` | `internal/artifact/memory_repository.go:99-109` | counts the rows of an object that are not failed |
| `ArtifactRepository.MemoryRepository.CountActiveByStorageKey` | `internal/artifact/memory_maintenance.go:47-61` | counts the rows of an object that are neither failed nor deleting |
| `ArtifactRepository.MemoryRepository.StoredUsage` | `internal/artifact/memory_maintenance.go:23-45` | one pass in any order gives the sum of the sizes of the distinct referenced objects |
| `ArtifactRepository.MemoryRepository.DeleteByConversation` | `internal/artifact/memory_repository.go:121-132` | removes exactly the rows of the conversation and hands back all of them and no other |
| `ArtifactRepository.MemoryRepository.List` | `internal/artifact/memory_maintenance.go:71-137` | returns the oldest matching rows, oldest first and each once, up to the limit; what is left out is not older than anything returned |
| `ArtifactRepository.MemoryRepository.ListDueObjectDeletions` | `internal/artifact/memory_maintenance.go:157-181` | returns the entries that are due, ordered by their time and their keys, up to the limit; what is left out does not come before anything returned |
| `ArtifactRepository.LocalContentStore.Put` | `internal/artifact/local_store.go:40-133` | an object is created only when its key is absent, and the caller learns that it created it exactly then; a sound call accepts exactly content within the limit and of its media type |
| `ArtifactService.ObjectDeletionBackoff` | `internal/artifact/maintenance.go:511-523` | the doubling loop computes min(2^(n-1) minutes, 6 hours) |
| `ArtifactService.Service.EnforceQuota` | `internal/artifact/maintenance.go:224-248` | an admitted object is already accounted for or fits; without failures it is refused exactly when it is neither |
| `ArtifactService.Service.CleanupUncommitted` | `internal/artifact/artifact.go:414-426` | withdraws the row, and the object only when this upload created it and no row refers to it afterwards |
| `ArtifactService.Service.Put` | `internal/artifact/artifact.go:326-412` | under any failures inside it the call keeps object safety and the quota, touches no other row and no existing object; success hands out the upload's own row, quarantined if and only if the content was flagged and ready otherwise, with the expiry asked for or the retention default, or an earlier ready row of the same producer, owner and content, which without faults happens exactly when there is one and then leaves no new row |
| `ArtifactService.Service.Upload` | `internal/artifact/artifact.go:348-370` | the first half: an uploading row and an object that the quota admits, or nothing visible; without faults refused content leaves a failed row and a full quota none |
| `ArtifactService.Service.Commit` | `internal/artifact/artifact.go:371-411` | the second half: an earlier row of the same producer, owner and content, or the own row published by the compare-and-swap, quarantined if and only if the content was flagged |
| `ArtifactService.Service.Open` | `internal/artifact/artifact.go:457-483` | what is read back has the digest and size of the row, which has not expired; the object is never missing; without faults a read of one's own ready, unexpired row succeeds and that of a quarantined one is refused as such |
| `ArtifactService.Service.Extract` | `internal/artifact/extract.go:151-177` | a projection is written only once, by the compare-and-swap, and only to a ready row; without faults the call succeeds exactly on a ready, unexpired row of one's own |
| `ArtifactService.Service.PersistExtraction` | `internal/artifact/extract.go:596-619` | first writer wins, for a row read at any earlier time: what is handed out is what the row holds, a caller that was overtaken writes nothing and gets the stored projection |
| `ArtifactService.Service.Delete` | `internal/artifact/artifact.go:490-524` | touches one row and at most its object, the object only when no active row refers to it; success removes the row; without faults a row of one's own always goes, and its object with the last reference |
| `ArtifactService.Service.DeleteConversation` | `internal/artifact/artifact.go:531-561` | all rows of the conversation go before any object, objects only without active references; without faults no object stays that only those rows referred to |
| `ArtifactService.Service.DeleteExpiredArtifacts` | `internal/artifact/maintenance.go:423-457` | published rows whose time lies ahead, or that never expire, are untouched, and objects go only without active references; without faults no published row is left whose expiry has passed or that is an input older than the retention period, when the expired ones fit one batch |
| `ArtifactService.Service.SweepUploads` | `internal/artifact/maintenance.go:345-373` | only uploads last touched longer ago than the limit are touched, and closed as failed; without faults none is left, when they fit one batch |
| `ArtifactService.Service.SweepDeletions` | `internal/artifact/maintenance.go:375-407` | only deleting rows last touched longer ago than the limit go, no object is touched, and the outbox only gains entries that are due at once; without faults no such row is left, when they fit one batch |
| `ArtifactService.Service.SweepStaleArtifacts` | `internal/artifact/maintenance.go:335-419` | both sweeps leave published rows alone; without faults no upload and no deletion is left stuck when each kind fits its batch |
| `ArtifactService.Service.DrainObjectDeletions` | `internal/artifact/maintenance.go:462-509` | removes no actively referenced object; every entry is settled or rescheduled with the back-off of its next attempt; without faults no due entry is left, when they fit one batch |
| `ArtifactService.Service.GarbageCollectObjects` | `internal/artifact/maintenance.go:530-592` | removes no object that is young or actively referenced; without faults and up to 2000 objects every survivor is young, actively referenced or queued |
| `ArtifactService.Service.RunMaintenance` | `internal/artifact/maintenance.go:604-634` | keeps object safety and the quota in every environment, only closes rows, leaves published rows alone whose time has not come, takes no actively referenced object; a fault-free pass leaves no overdue row and no stuck upload or deletion when each kind fits its batch of 500, and over at most 2000 objects and 200 due or stale deletions no object past the grace period without an active reference, except those queued for the future |
| `ArtifactService.Service.Serve` | `internal/artifact/artifact.go:326-561` | every sequence of uploads, reads, extractions, deletions and maintenance passes, with any failures inside them, keeps object safety and the quota, and no row changes its object |
| `ArtifactService.Service.PutServeOpen` | `internal/artifact/artifact.go:326-483` | what was uploaded is what is read back: after any sequence of other calls a successful read of the row returns exactly the uploaded content |
| `ArtifactService.Service.PutThenOpen` | `internal/artifact/artifact.go:326-483` | the undisturbed round trip of an upload without an earlier match: it is stored, and its content is read back if and only if it was not flagged, the reader is the owner and the expiry lies ahead |
| `RowVersions.SnapshotWasCurrent` | `internal/artifact/memory_repository.go:36-54` | a write that takes effect was computed from the row's current value, however old the writer's snapshot |
| `RowVersions.RunKeeps` | `internal/artifact/memory_repository.go:36-54` | the history invariant of versioned rows holds in every state of every interleaving at repository-call granularity |
| `RowVersions.SnapshotsAreHonest` | `internal/artifact/memory_repository.go:36-54` | in every interleaving a version stands for one value: a row read at any time equals the stored one if the versions are the same |
| `RowVersions.RowsOnlyMoveForward` | `internal/artifact/artifact.go:497-505` | in every interleaving a failed or deleting row never becomes ready or quarantined again, an object once attached and a projection once written never change, and a version names one value of the row |
| `RowVersions.RemovedStaysRemoved` | `internal/artifact/artifact.go:519-523` | a removed row never comes back |
| `RowVersions.SweptUploadIsNeverPublished` | `internal/artifact/maintenance.go:351-373` | an upload closed by the sweep is never published, although its own publication may still be on its way |
| `RowVersions.OneWriterWins` | `internal/artifact/extract.go:596-619` | two writes that expect the same version of a row are never both applied |
| `RowVersions.VersionCountsWrites` | `internal/artifact/memory_repository.go:36-54` | the version of a row counts exactly the writes applied to it: each raises it by one and nothing else moves it |
| `RowVersions.ServiceWrites` | `internal/artifact/artifact.go:371-411` | what Put and Extract write are writes of this machine |
| `SecretScan.SecretScanReader.Read` | `internal/artifact/secret_scan.go:43-68` | one chunk moves the reader to the specified state: scanned bytes, tail and first matching rule |
| `SecretScan.ScanIsSound` | `internal/artifact/secret_scan.go:43-68` | whatever the cut: what every piece around a position shows is flagged, what is flagged has at least a word of a rule in it, and as long as nothing is flagged the tail is the last min(1024, scanned) bytes |
| `SecretScan.BareFlaggedForEveryCut` | `internal/artifact/secret_scan.go:43-68` | for rules without boundaries: flagged however the upload is cut if and only if a match of at most 1025 bytes lies in the inspected prefix |
| `SecretScan.AgreesWithOneShot` | `internal/artifact/secret_scan.go:76-86` | for rules without boundaries whose words contain short ones, streaming and one-shot scanning agree for every cut |
| `SecretScan.OneShotIsACut` | `internal/artifact/secret_scan.go:76-86` | to scan in one shot is to deliver everything in one read |
| `SecretRules.FlaggedForEveryCut` | `internal/artifact/secret_scan.go:20-68` | for every choice among the six rules: flagged however the upload is cut if and only if a robust match lies in the inspected prefix, where robustness is decided rule by rule |
| `SecretRules.PrivateKeyWords` | `internal/artifact/secret_scan.go:21-21` | the first rule: the header of a private key without a kind or of one of four kinds |
| `SecretRules.OpenAiWords` | `internal/artifact/secret_scan.go:22-22` | the second rule, byte by byte |
| `SecretRules.AwsWords` | `internal/artifact/secret_scan.go:23-23` | the third rule, byte by byte |
| `SecretRules.GithubWords` | `internal/artifact/secret_scan.go:24-24` | the fourth rule, byte by byte |
| `SecretRules.SlackWords` | `internal/artifact/secret_scan.go:25-25` | the fifth rule, byte by byte |
| `SecretRules.NamedWords` | `internal/artifact/secret_scan.go:26-26` | the sixth rule: a name in any case, a separator within white space, perhaps a quotation mark, and a value of twelve bytes or more |
| `SecretRules.SureRulesAreFlagged` | `internal/artifact/secret_scan.go:21-24` | for private_key, aws_access_key and github_token: what one shot finds is flagged for every cut, and what is flagged for every cut one shot finds |
| `SecretRules.PrivateKeyAgrees` | `internal/artifact/secret_scan.go:21-21` | for private_key every single cut agrees with one shot |
| `SecretRules.DashesHideTokens` | `internal/artifact/secret_scan.go:22-25` | tokens of openai_key and slack_token with k hyphens are found in one shot, have no match shorter than k, and are flagged for every cut, or byte by byte, if and only if they have at most 1025 bytes |
| `SecretRules.EdgesAddMatches` | `internal/artifact/secret_scan.go:23-23` | AKIA with more than sixteen capitals is not found in one shot and flagged when cut behind the sixteenth |
| `SecretRules.LongMatchIsMissed` | `internal/artifact/secret_scan.go:26-26` | for the six rules and every k: a password behind k blanks is found in one shot, and is flagged for every cut, or byte by byte, if and only if the whole match has at most 1025 bytes |
| `SecretRules.NamedSecretIsUnbounded` | `internal/artifact/secret_scan.go:26-26` | the sixth rule has matches of any length that contain no short one |
| `SessionLocks.KeysAreDistinct` | `internal/agent/kernel.go:3056-3056` | different sessions never share a lock as long as no user name, or no session name, contains a NUL character |
| `SessionLocks.KeysMeet` | `internal/agent/kernel.go:3056-3056` | two sessions share a lock if and only if they are the same or their names overlap around a NUL character |
| `SessionLocks.KeysCanCollide` | `internal/agent/kernel.go:3056-3056` | every user name with a NUL character shares a lock with a shorter one, for a session of each |
| `SessionLocks.Kernel.Acquire` | `internal/agent/kernel.go:3055-3066` | joins the entry of the key or opens one, and keeps the lock invariant |
| `SessionLocks.Kernel.Lock` | `internal/agent/kernel.go:1178-1178` | taking the mutex of the entry keeps the lock invariant |
| `SessionLocks.Kernel.Unlock` | `internal/agent/kernel.go:3069-3069` | giving the mutex back keeps the lock invariant |
| `SessionLocks.Kernel.Drop` | `internal/agent/kernel.go:3070-3077` | the process leaves and the last one takes the entry with it; the lock invariant holds again |
| `SessionLocks.Kernel.LockLaws` | `internal/agent/kernel.go:3055-3078` | all processes between acquire and release on a key share the one entry, whose count is their number; at most one holds it; an entry without processes does not exist; a locked mutex has a holder among them |
| `SessionLocks.Kernel.Perform` | `internal/agent/kernel.go:3055-3078` | every schedule of any number of processes keeps the lock invariant |
| `ModelStream.OneCallIsHeard` | `internal/agent/kernel.go:2897-2938` | all non-nil responses come from the last provider call, so no call starts after one was delivered; an error is the last item, the only one, and the last call's own |
| `ModelStream.LastCallIsComplete` | `internal/agent/kernel.go:2897-2938` | the stream of the last call is delivered completely, followed by its error |
| `ModelStream.CallsAreBounded` | `internal/agent/kernel.go:2980-3009` | at most 2 * (retries + 1) provider calls |
| `ModelStream.BoundIsReached` | `internal/agent/kernel.go:2980-3009` | a provider that alternates between the two kinds of errors makes exactly that many calls necessary |
| `ModelStream.EveryCallIsJustified` | `internal/agent/kernel.go:2915-2937` | every further call follows a call that failed without a non-nil response and after which the request was not cancelled, and a request over the context limit is sent again only after it was trimmed |
| `ModelStream.StopsAtFirstReason` | `internal/agent/kernel.go:2891-3009` | the last call is the first one with a reason to stop: success, output, cancellation, attempts used up, or a context limit that was trimmed just before or cannot be trimmed; stated on the provider's replies alone |
| `ModelStream.TraceIsComplete` | `internal/agent/kernel.go:2891-3009` | the trace is what all calls delivered, in order, followed by the error of the last one |
| `ModelStream.RetriesHideFailures` | `internal/agent/kernel.go:2980-3009` | a success within the retries after nothing but silent, passing failures reaches the consumer without any error |
| `ModelStream.ConsumerLaws` | `internal/agent/kernel.go:2891-3009` | the same laws for what any consumer has received, whenever it stops |
| `ModelStream.Recover` | `internal/agent/kernel.go:2891-2938` | one recovered attempt delivers its part of the trace and hands at most one error on, and never yields after the consumer has stopped |
| `ModelStream.Generate` | `internal/agent/kernel.go:2974-3009` | for any provider, cancellation, trimming and consumer the stack delivers exactly the specified trace up to where the consumer stops, and makes no call after that; no call follows one with a reason to stop, and a consumer that does not stop gets the responses of all calls up to the first such one, and its error |
| `ContextTrim.AddIsCapped` | `internal/agent/context_manifest.go:261-273` | adding estimates is adding, cut off at the largest integer |
| `ContextTrim.ModalityIsCapped` | `internal/agent/context_manifest.go:300-319` | the byte estimate is the charge for the started chunks cut off at the limit, and never shrinks as data grows |
| `ContextTrim.InlineIsCharged` | `internal/agent/context_manifest.go:275-319` | inline data costs a base and an amount for every started chunk up to a limit, with the numbers of the three kinds |
| `ContextTrim.PartIsCharged` | `internal/agent/context_manifest.go:214-235` | a part costs at least its text, whatever else it holds comes on top, and one that shows nothing costs 256 |
| `ContextTrim.EstimateContentTokens` | `internal/agent/context_manifest.go:208-243` | saturating part by part gives the saturated sum, which is no less than the text of all parts |
| `ContextTrim.ScaleIsConservative` | `internal/agent/context_manifest.go:324-348` | calibration never makes an estimate smaller and never leaves the integer range |
| `ContextTrim.ScaleIsRoundedProduct` | `internal/agent/context_manifest.go:321-348` | calibration multiplies by the factor, taken as at least one and at most two, rounds up and cuts off at the largest integer |
| `ContextTrim.BuildEstimate` | `internal/agent/context_manifest.go:451-485` | the manifest's estimate is the saturated sum of its items |
| `ContextTrim.RemovedAreEligible` | `internal/agent/context_manifest.go:51-66` | trimming removes only entries that are neither the newest user entry nor carry a function call or response, oldest first |
| `ContextTrim.RemovedReachesLimit` | `internal/agent/context_manifest.go:53-66` | the removed entries are a prefix of the eligible ones, and stop only at the limit or when all are gone |
| `ContextTrim.RemovedIsShortest` | `internal/agent/context_manifest.go:53-66` | no shorter run of eligible entries would reach the limit |
| `ContextTrim.RemovableMayGo` | `internal/agent/context_manifest.go:51-66` | what may be removed is exactly the entries without function calls and responses that are not the newest one of the user |
| `ContextTrim.CompactKeepsOrder` | `internal/agent/context_manifest.go:67-73` | compaction keeps the order of the remaining entries |
| `ContextTrim.ProtectedEntriesStay` | `internal/agent/context_manifest.go:60-73` | every function entry and the newest user entry are still there afterwards |
| `ContextTrim.RebuildAgrees` | `internal/agent/context_manifest.go:36-75` | the estimate rebuilt from the trimmed history is the old one minus what was removed |
| `ContextTrim.Request.Trim` | `internal/agent/context_manifest.go:36-75` | clearing in place and compacting produce exactly the specified history, and nothing changes when nothing is removed |
| `ContextTrim.Request.BeforeModelCall` | `internal/agent/kernel.go:2447-2467` | while no sum leaves the integer range, a request is admitted exactly when it fits, or when there is room for input and the protected entries alone fit; admitted requests fit; fitting requests are untouched; a saturated estimate is admitted untouched |
| `ContextTrim.Request.TrimRequest` | `internal/agent/kernel.go:2344-2373` | while no sum leaves the integer range, recovery succeeds exactly when there is room for input, the window is not the largest integer, and some entry may go; otherwise nothing changes |
| `ContextTrim.WarningIsExact` | `internal/agent/context_manifest.go:519-528` | the warning of the manifest is exact for all 64-bit amounts |
| `ContextTrim.GuardAgrees` | `internal/agent/kernel.go:2450-2463` | the guard before the call agrees with that warning exactly when its sum stays in range or wraps around to above the window |
| `ContextTrim.SaturatedEstimatePasses` | `internal/agent/kernel.go:2450-2463` | a saturated estimate with any reserve passes the guard although the manifest warns |
| `ContextTrim.FileReferencesCost` | `internal/agent/context_manifest.go:225-227` | a history of k file references is estimated at 1024 k, so that it takes 2^53 of them to saturate |
| `Segmentation.SplitExpressionBlocks` | `internal/bot/extensions.go:196-250` | the blocks are those of the line-by-line scan, keep every visible character in order, and every fenced piece of code, closed or not, is one of them |
| `Segmentation.BlockScanner.Line` | `internal/bot/extensions.go:202-240` | one line keeps one of the two buffers empty, loses nothing visible, and does what the specified scan does |
| `Segmentation.AfterTracks` | `internal/bot/extensions.go:220-250` | the scan is inside code exactly while a fence is open, holds the lines since it opened, and has emitted every fenced piece that was closed |
| `Segmentation.FindFromMiddle` | `internal/bot/extensions.go:257-275` | the search from the middle outwards finds the nearest fitting place, the later of two equally near ones, and misses none |
| `Segmentation.SplitSentenceGroup` | `internal/bot/extensions.go:257-275` | the paragraph is cut at the safe sentence end nearest to its middle and stays whole exactly when there is none; both parts together keep every visible character; links and inline code behind a balanced beginning and list items are whole in one of the parts, no line of a cut text is one of a table, and no cut but at a newline lies in a list item |
| `Segmentation.CandidatesAreSafe` | `internal/bot/extensions.go:263-297` | where a text may be cut, exactly and seen from the whole text: strictly inside, behind a sentence end, before something visible, with no code and no bracket open, no table line in the text nor one begun behind the cut, and not inside a list item |
| `Segmentation.LinkIsNotCut` | `internal/bot/extensions.go:279-284` | no candidate lies between the brackets of a Markdown link behind a balanced beginning |
| `Segmentation.CodeIsNotCut` | `internal/bot/extensions.go:279-284` | no candidate lies in a span of inline code |
| `Segmentation.ItemIsNotCut` | `internal/bot/extensions.go:291-297` | no candidate lies in the line of a list item, not even at its end |
| `Segmentation.MergeTinyExpressionParts` | `internal/bot/extensions.go:318-328` | the merged parts put together are the same text; exactly the first part and those of 24 characters or more still stand for themselves; nothing is broken up, and no new piece of one line becomes whole |
| `Segmentation.RunIsFenced` | `internal/bot/extensions.go:252-255` | every fenced piece of two lines or more is recognised as such |
| `Segmentation.FencedIsFenced` | `internal/bot/extensions.go:252-255` | a text counts as fenced code exactly when it begins with a fence and has a second line |
| `Segmentation.PlaceParagraph` | `internal/bot/extensions.go:167-190` | a paragraph adds exactly its visible characters and its number of parts; it is whole afterwards if and only if it was before, or was not cut: it is fenced code, there is no room for two parts, it is short, or no place in it may be cut; its links, inline code and list items are whole, and so is a paragraph with a table |
| `Segmentation.Compose` | `internal/bot/extensions.go:165-190` | over all paragraphs: fenced code and paragraphs with a table are whole, and so are all links, inline code and list items; a paragraph of a single line that occurs nowhere else is whole if and only if it was not cut at its turn |
| `Segmentation.SemanticSegments` | `internal/bot/extensions.go:148-192` | the visible characters are kept in order and there are between one and max(1, min(maxSegments, 8)) segments; a short reply is one segment; of a long one every fenced piece of two lines or more is whole, a paragraph of one line is whole iff it was not cut, and the links, inline code, list items and tables of every paragraph are whole; a reply of one line is whole iff it is short or no place in it may be cut |
| `Segmentation.VisibleOfConcat` | `internal/bot/extensions.go:148-192` | the visible characters of the joined segments are those of the segments one after the other |
| `Segmentation.OneLineFenceIsLast` | `internal/bot/extensions.go:203-243` | the only fenced piece of one line is the last line of a text |
| `Segmentation.OrdinaryFenceIsNeverCut` | `internal/bot/extensions.go:279-284` | a line of three backticks and no other has no candidate, because what is left of any place counts as open inline code |
| `Segmentation.OneLineFenceMayBeCut` | `internal/bot/extensions.go:279-297` | a line of four backticks and ordinary characters may be cut after every sentence end behind them, and nowhere else |
| `Segmentation.OneLineFenceIsCut` | `internal/bot/extensions.go:148-192` | a fence line of four backticks is not whole in any segment iff two messages are allowed, it reaches the threshold and a sentence ends inside it |
| `ProactiveQuota.EquivalentDecides` | `internal/bot/extensions.go:369-405` | equivalent states decide every later series of reservations alike |
| `ProactiveQuota.RollbackAsIfNever` | `internal/bot/extensions.go:422-441` | after any later tries, rolling a reservation back leaves a state that decides every further series as if it had never been made and only the later grants had |
| `ProactiveQuota.OnlyLastGrantIsLost` | `internal/bot/extensions.go:422-441` | after any later tries, the state after a rollback counts like the one of the world without the reservation and differs at most in the last grant, which is lost exactly when it is the withdrawn one |
| `ProactiveQuota.RollbackDecidesNext` | `internal/bot/extensions.go:422-441` | under any new settings the next decision is that of the world without the reservation iff a later grant took its place, the new cooldown is over for the earlier grant, or the new limit refuses anyway |
| `ProactiveQuota.RollbackUnderNewSettings` | `internal/bot/extensions.go:422-441` | under any new settings all later series of decisions are those of the world without the reservation iff a later grant took its place or forgetting the earlier one is harmless |
| `ProactiveQuota.RollbackForgetsEarlierGrant` | `internal/bot/extensions.go:438-440` | for instance a cooldown raised from 10 to 100 seconds no longer sees the grant before the withdrawn one |
| `ProactiveQuota.FairTry` | `internal/bot/extensions.go:371-393` | a try keeps the quota law: in no hour more surviving grants than the limit, and no two closer than the cooldown |
| `ProactiveQuota.FairWithdraw` | `internal/bot/extensions.go:422-441` | a rollback keeps it |
| `ProactiveQuota.Manager.Reserve` | `internal/bot/extensions.go:369-405` | decides and changes the source's state as specified, leaves other sources alone but for at most one window, dropped exactly when a grant makes the table exceed 512, and keeps every source that was never dropped within its quota; such a source is refused if and only if the grants that were not rolled back use up the hourly limit or one is younger than the cooldown |
| `ProactiveQuota.Manager.Rollback` | `internal/bot/extensions.go:409-442` | withdraws exactly one grant of one source and keeps every source within its quota |
| `WorkingSet.ValidateIds` | `internal/agent/working_set.go:103-112` | accepts exactly the working sets without repeated identifiers |
| `WorkingSet.SelectWorkingSet` | `internal/agent/working_set.go:184-240` | the loop over the sorted items computes the selection whose laws are stated beside it; what is included is in order of requiredness, priority, relevance and identifier |
| `WorkingSet.OrderDoesNotMatter` | `internal/agent/working_set.go:197-211` | the same validated items in any order give the same selection |
| `WorkingSet.SelectionLaws` | `internal/agent/working_set.go:213-239` | every item is included or excluded once, no key is included twice, and Used is the sum of the included items and within the budget |
| `WorkingSet.OverBudgetIsExact` | `internal/agent/working_set.go:213-239` | for every item of the input: stale, unknown and expired items are reported as such; against the included items that come before it, a usable one is a duplicate when one of them has its key, and otherwise included exactly when it fits above them and over_budget exactly when it does not |
| `WorkingSet.RequiredItemsFit` | `internal/agent/working_set.go:198-202` | when all required items together fit the budget, none of them is reported as over_budget |
| `ToolRegistry.Registry.Register` | `internal/agent/tool_registry.go:365-393` | no two entries ever share a name and no name changes hands; the name index stays exact if and only if no entry is registered again under another name |
| `ToolRegistry.Registry.Rename` | `internal/agent/tool_registry.go:365-393` | registering a tool twice, the second time under another name: when both are accepted, which is characterised, the old name is refused to every other tool after any further registrations, although no entry carries it |
| `ToolRegistry.WeakOrderIffTiesAreSimple` | `internal/agent/tool_registry.go:654-665` | the comparison is a sorting order on a list of candidates iff wherever foreign sources are tied, each is there with a single identifier |
| `ToolRegistry.LevelIsNotTransitive` | `internal/agent/tool_registry.go:654-665` | three tools of two foreign sources are enough for the comparison not to be a sorting order |
| `ToolRegistry.Select` | `internal/agent/tool_registry.go:580-692` | every tool is included or excluded once; an included one is ready, let through by both lists, suits the phase and is denied by neither policy nor model, and every other one is out for the first of these it violates, or for the budget; required tools and better scores come first, then sources and identifiers when ties are simple; the schema budget holds, a tool that is out for it does not fit on top of the included ones it does not outrank, and required tools that fit together are never out for it; the missing names are those of the excluded required tools, and without one a required name is answered iff the catalogue answers it |
| `ToolRegistry.OverBudgetDoesNotFit` | `internal/agent/tool_registry.go:666-678` | in particular a tool that is out for the budget does not fit on top of everything that was included |
| `ToolRegistry.UnknownRequiredToolIsNotMissed` | `internal/agent/tool_registry.go:604-635` | a catalogue with one eligible tool: requiring it and a name that nobody goes by succeeds |
| `Retrieval.Bound` | `internal/agent/retrieval.go:610-622` | writing over the slice that is being read, the loop keeps the longest prefix within count and bytes unchanged |
| `Retrieval.DeduplicateEvidence` | `internal/agent/retrieval.go:574-623` | the result is the longest prefix, within count and bytes, of the sorted first items of each key |
| `Retrieval.FirstsAreDistinct` | `internal/agent/retrieval.go:575-599` | the first items have different keys and cover all keys |
| `Retrieval.CandidatesAreOrdered` | `internal/agent/retrieval.go:600-609` | they are ordered by score, source kind and identifier, and ties keep the order in which they were found |
| `Retrieval.NothingBetterIsLeft` | `internal/agent/retrieval.go:574-623` | of every key found, the first item is kept with its score, re-ranked if asked for, or scores no better than anything kept |
| `Ordering.LessAtFirstDifference` | `internal/agent/retrieval.go:605-608` | strings are compared at the first character in which they differ, a string coming before its continuations |
| `Retrieval.EmptyIffNothingToKeep` | `internal/agent/retrieval.go:574-623` | nothing is left exactly when there is no evidence, none is asked for, or the best item exceeds the byte budget |
| `Retrieval.Orchestrator.ValidateCachedAccess` | `internal/agent/retrieval.go:336-361` | succeeds exactly when every requested source is there, can re-validate and does |
| `Retrieval.Orchestrator.Search` | `internal/agent/retrieval.go:168-334` | a cached answer is the result of an earlier search under the same key, not expired, and re-validated by every requested source; otherwise the evidence found is deduplicated, ordered, cut to the longest fitting prefix, outside of which nothing scores better, and cached unless nothing is kept, which is characterised; in every answer scores do not increase, keys do not repeat and topK holds |
| `Retrieval.Orchestrator.RefusedSearch` | `internal/agent/retrieval.go:201-330` | an unexpired entry whose re-validation failed stays if and only if nothing is kept of what the sources find, and is replaced otherwise |
| `Retrieval.Orchestrator.RefusedEntryStays` | `internal/agent/retrieval.go:201-215` | a refused entry that stayed is served again once access is granted before it expires; one that was replaced gives way to the fresh answer |
| `Retrieval.Orchestrator.Invalidate` | `internal/agent/retrieval.go:365-382` | no entry of the request or in its scope is left, and no other is touched |
| `Retrieval.Orchestrator.CleanupExpired` | `internal/agent/retrieval.go:386-403` | exactly the expired entries go, and their number is returned |
| `CommandRegistry.Registry.Lookup` | `internal/bot/command.go:261-269` | a name resolves exactly to the listed command that owns its key |
| `CommandRegistry.Registry.Register` | `internal/bot/command.go:185-212` | a command is added under all its names or not at all, exactly when it is well formed and no key is taken; the three indexes stay consistent |
| `CommandRegistry.Registry.RegisterFrom` | `internal/bot/command.go:165-183` | whether it succeeds or fails midway, no existing name changes its owner, and every new one belongs to the plugin and is for administrators only |
| `CommandRegistry.Registry.UnregisterSource` | `internal/bot/command.go:216-239` | everything of the source goes from all three indexes, nothing else does, and they stay consistent |
| `CommandRegistry.Registry.RegisterThenUnregister` | `internal/bot/command.go:165-239` | for a source without commands, registering any commands, successfully or not, and then unregistering it restores all three indexes exactly |
| `CommandRegistry.RemoveUndoes` | `internal/bot/command.go:216-239` | the same as a law of the indexes: removing a source undoes every extension by it |

## Left out

* Manager shutdown: the scheduler is modelled with the manager open for the whole group; work queued after the workers
  have drained would get no result.
* Persistence of groups and runs: a failing save ends a run as failed and is a choice of the environment; revisions and
  the repositories on disk are not part of this model.
* Object-level interleaving inside one artifact call: calls are atomic towards objects, because an upload that reuses an
  old, unreferenced object is not protected from a concurrent collection pass. Interleavings are modelled for the rows.
* Garbage collection over more than 2000 objects: each pass looks at the first 2000 only, so complete reclamation is not
  claimed there.
* ArtifactRepository.MemoryRepository.ListDueObjectDeletions: how a storage key is spelled is an arbitrary function.
* ArtifactRepository.LocalContentStore.Put: whether the declared media type matches the content is a parameter; path handling and
  temporary files are left out, a digest is an injective function of the content, and the storage key one of the digest.
* ArtifactService.Service.Put: the checks on names, kinds and metadata are left out of the admission law, and when rows of
  several owners match, the code takes any of them, so that success is stated both ways only when no foreign row matches.
* ArtifactService.Service.Open: whole objects are read, byte ranges are left out.
* ArtifactService.Service.Extract: the projection is a parameter; the extractors are left out.
* RowVersions: row identifiers are random in the code; here they never repeat.
* SecretRules: letters in either case means the ASCII ones; the two further characters that fold to s and k are left out.
* SessionLocks.Kernel.Lock: a process takes the mutex only when it is free; fairness of the mutex is not modelled.
* ModelStream: errors are told apart by a tag instead of by phrases in their message, and streams are finite.
* ContextTrim.Request.BeforeModelCall: provider token counts, which may replace the estimate, are left out, and the admission
  law is stated where no sum leaves the integer range, which `ContextTrim.GuardAgrees` shows to be necessary.
* Segmentation.SemanticSegments: when the text stays in one piece it is returned as it is, with its carriage returns, so
  wholeness of several lines is stated for the text that is cut; the exact law is stated for paragraphs of one line that occur
  in no other paragraph, because another occurrence may be whole elsewhere.
* ProactiveQuota.Manager.Reserve: the durable quota repository, quiet hours and allow list are left out (the latter as one flag),
  and a source whose window was dropped to bound the table is outside the guarantee.
* ToolRegistry.Select: the catalogue snapshot and its digests are left out, and the missing names are not sorted. The order of tools that the comparison does not tell
  apart is arbitrary, and so is that of foreign ties that are not simple.
* Retrieval.Orchestrator.Search: what the parallel calls to the sources bring in, after the checks on single items, is one
  arbitrary list; events and clones are left out.
* CommandRegistry: the normalisation of names to keys is an arbitrary function, and permission, scope and category checks are
  one flag.
* Relevance scores and the estimate multiplier are integers or reals instead of floating-point numbers.
* The sliding-window limit of ordinary messages, the mention-wait tickets, the JPEG and PDF header scanners, file slices, the key
  layout on disk and the compaction failure tracker would only add easier members.
