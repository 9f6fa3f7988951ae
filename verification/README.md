# Verified model of the AMOS memory engine

This project models the memory engine of Contract Evidence OS in Dafny and proves what it keeps: the temporal
fact store and its as-of query, timelines, the associative pointer index, deletion and purging, contradiction
repair with its learned controller, the admission controller, the maintenance lease protocol, and two codecs, the
type-directed serializer of the schema models and the environment file of the console. It covers the engine
without a repository: plain dictionaries, identifiers from a counter, the clock and all risk signals as inputs,
scores as exact reals.

Each component comes in two layers. Values and functions say what an operation does to a memory, a repair desk, an
admission gate or a maintenance office; lemmas prove the laws. Classes hold the dictionaries as the engine does and
update records in place; every method leaves exactly what the function of its operation says, so the laws hold of
the classes too.

| component | files |
|---|---|
| sequences, stable sort, string order | Prelude |
| records and listings | Records |
| fact store, as-of query | FactStore |
| timelines and project state | Timeline, TimelineStore |
| pointer index, deletion, purge | Pointers, Integrity, Restoration, PurgeLaws, Deduplication |
| upkeep and whole runs of the memory | Upkeep, UpkeepLaws, Runs |
| contradiction repair | Repair, RepairLearning, RepairLaws, RepairRuns, RepairSignals, RepairRecords |
| admission controller | Admission, AdmissionLaws |
| lease protocol | Lease, LeaseLaws, LeaseRuns, LeaseTiming, LeaseRecords |
| codecs | Schema, SchemaLaws, EnvFile, EnvFileLaws |
| dictionaries updated in place | MatrixRecords, Matrix, RepairEngine, AdmissionEngine, LeaseEngine |

`dafny verify dfyconfig.toml` checks the whole project.

## Where the code does less than one would expect

Each of these is a lemma; where there is a condition under which the code does keep the claim, it is proved to be
the exact one.

- A fact that arrives with an earlier start than the fact it supersedes inverts the closed interval, and instants
  between can have two relevant facts (`WriteConsistentIff`, `AsOfCount`, `OutOfOrderAnswersTwice`).
- At the instant at which a fact is superseded two facts are relevant (`BoundaryAnswersTwice`).
- A stored timeline freezes the contradiction count of the project state (`ProjectStateFrozen`,
  `StoredTimelineFrozen`), and deleting a scope leaves its timelines, and the states they name, visible
  (`SegmentsSurvive`).
- Durative records are named without their scope or time, so a deleted one never comes back
  (`DeletedDurativeNeverReturns`) and a write in one scope replaces the record of another
  (`OtherDurativeSurvivesIff`).
- A repair changes statuses only, so a fact it supersedes stays relevant at every instant (`RepairedStaysRelevant`),
  and applying or rolling back after other writes can leave two active facts (`ApplyKeepsOneIff`,
  `RollbackKeepsOneIff`); any write to the recommended storyline between detection and apply does it
  (`LateApplyBreaks`, with a run in `LateApplyHappens`).
- The background loop records a new repair for each group of pending ones and applies only that, so the whole
  backlog stays (`BacklogStays`).
- A rollback can be repeated: each time it writes the same statuses and adds a signal against the scope group, so
  three rollbacks of one repair stop all later ones (`RollbackAgain`, `RollbacksRatchet`).
- Learned repair penalties are filed under the sorted list of scope keys, joined by a separator that scope keys may
  contain, while the signals are counted by the set of scopes. So training the scope `a|b` overwrites what was learned
  for `a` and `b`, and a list that names `b` twice loads no penalty at all (`RatchetSlips`, one run that shows both).
  Which trainings undo a learned penalty is `StepKeepsHeavyIff` and `RunKeepsHeavyIff`; over keys without separators,
  lists share a penalty exactly when they are rearrangements of each other (`GroupKeyIff`).
- Registering a known worker forgets its claims (`RegisterKeepsBooksIff`), a reclaim frees schedules that another
  worker has taken over since (`OverReleaseHappens`), and a worker marked stale is never reclaimed again
  (`StaleNeverReclaimed`).
- A resume ignores leases (`ResumeIgnoresLease`) and can be repeated, which books another run and postpones the
  schedule every time (`ResumesPostpone`); the run made by a resume without a worker stays active until its holder
  registers anew or is reclaimed (`StepLingersIff`).
- Instants and models under `Any` or a union of several types do not survive the serializer (`InstantUnderAny`).
- Values with surrounding blanks or line breaks do not survive the environment file (`WriteThenParseIff`).

## Model

| member | source | states |
|---|---|---|
| FactStore.OwnStorylineGrows | src/contract_evidence_os/memory/matrix.py:3612-3654 | a write closes the newest fact of its (scope, subject, predicate) storyline at the new start, supersedes it, and appends an open active fact that names it |
| FactStore.OtherStorylineKept | src/contract_evidence_os/memory/matrix.py:3619-3633 | a write leaves every other storyline exactly as it was |
| FactStore.WriteKeepsChains | src/contract_evidence_os/memory/matrix.py:3612-3654 | every write keeps every storyline one supersession chain: only the newest fact is active and open, each earlier one ends where its successor starts |
| FactStore.AsOfCount | src/contract_evidence_os/memory/matrix.py:3843-3850 | for any arrival order: away from boundary instants the as-of query answers with one fact plus one per out-of-order arrival that straddles the instant |
| FactStore.AsOfUnique | src/contract_evidence_os/memory/matrix.py:3843-3850 | with in-order arrival the as-of answer is unique exactly when no later fact starts at the instant, and then it is the fact that started last |
| FactStore.BoundaryAnswersTwice | src/contract_evidence_os/memory/matrix.py:3846-3849 | at the start of a superseding fact the answers hold both it and the fact it closed, two different facts |
| FactStore.ConsistentIffInOrder | src/contract_evidence_os/evals/harness.py:186-189 | the interval consistency that the evaluation measures holds of a chain exactly when its facts arrived in order of their starts |
| FactStore.WriteConsistentIff | src/contract_evidence_os/memory/matrix.py:3626-3628 | a write keeps the intervals of its storyline well formed exactly when it starts no earlier than the fact it supersedes |
| FactStore.OutOfOrderAnswersTwice | src/contract_evidence_os/memory/matrix.py:3626-3628 | starts 1, 5, 3 in that order of arrival make two facts relevant at instant 4 |
| FactStore.NewFactSays | src/contract_evidence_os/memory/matrix.py:3612-3654 | what a written fact says: the content of its candidate, field by field, the summary standing in only for a missing object, and a confidence between 0.5 and 0.99 |
| UpkeepLaws.FactsNewestFirst | src/contract_evidence_os/memory/query_service.py:131-153 | facts are listed by observation, the newest first, and of equally new ones the one written first |
| Runs.ReachableChains | src/contract_evidence_os/memory/matrix.py:3612-3654 | after every run of writes, deletions, purges, upkeep and queries each storyline is one chain to its newest fact, the only active one |
| Runs.ReachableAsOf | src/contract_evidence_os/memory/matrix.py:3843-3850 | after every such run, where the standing facts of a storyline are in order of their starts, the as-of query is unique exactly away from boundaries and answers the last started fact |
| Runs.OrderlyRunOrders | src/contract_evidence_os/memory/matrix.py:3612-3654 | writes to a storyline in order of their starts, under a clock that does not run backwards, leave its standing facts in that order, whatever else ran |
| FactStore.OtherDurativeSurvivesIff | src/contract_evidence_os/memory/matrix.py:3656-3681 | the durative record of another scope survives a write exactly when its derived name differs or the written storyline has fewer than two facts |
| UpkeepLaws.RefreshSpans | src/contract_evidence_os/memory/matrix.py:3656-3681 | a storyline of two or more listed facts leaves exactly one durative record of its name, over all its facts in the order of their starts; a shorter one leaves none |
| UpkeepLaws.DurativeNames | src/contract_evidence_os/memory/matrix.py:3668 | blanks in a durative name become hyphens, so different storylines can share a name |
| Timeline.GroupsPartition | src/contract_evidence_os/memory/matrix.py:2137-2143 | the groups are maximal runs of one state and concatenate to the sorted facts |
| Timeline.TimelineShape | src/contract_evidence_os/memory/matrix.py:2161-2206 | supporting ids in segment order are the sorted facts, links form one doubly linked list, neighbours differ in state, every transition but the last is a state change |
| Timeline.CrossScopeShape | src/contract_evidence_os/memory/matrix.py:2224-2295 | the same for the cross-scope timeline: neighbours differ in state or scope, a scope change takes precedence, `continued` never occurs |
| Timeline.SegmentContradicts | src/contract_evidence_os/memory/matrix.py:2172-2180 | in a rebuilt timeline a segment contradicts exactly the earlier facts of other states and never merely resumes |
| Timeline.ResumesOverContradiction | src/contract_evidence_os/memory/matrix.py:2178-2180 | a segment resumes after contradiction exactly when its state occurred before, and is fresh otherwise |
| Timeline.CrossScopeResumes | src/contract_evidence_os/memory/matrix.py:2260-2269 | across scopes a segment resumes without contradiction exactly when every earlier fact states the same |
| Timeline.ContradictionCount | src/contract_evidence_os/memory/matrix.py:2315-2317 | the segments that resume after contradiction number the segments minus the distinct states |
| Timeline.ProjectStateCount | src/contract_evidence_os/memory/matrix.py:2303-2317 | without a stored timeline the project state counts segments minus distinct states of the subject |
| Timeline.ProjectStateFrozen | src/contract_evidence_os/memory/matrix.py:2303-2309 | with a stored timeline the count is read off it, and nothing that leaves the segments alone changes it |
| UpkeepLaws.SnapshotStates | src/contract_evidence_os/memory/matrix.py:2309-2335 | a project state names the states and ids of exactly the visible active facts of its subject in the scope |
| UpkeepLaws.SegmentsByStart | src/contract_evidence_os/memory/query_service.py:114-129 | the stored segments of a subject are listed by start and then by creation |
| Runs.StoredTimelineFrozen | src/contract_evidence_os/memory/matrix.py:2303-2309 | over every run of writes, deletions and status writes of repairs a stored timeline and the contradiction count read off it stay as they are |
| Timeline.StorylineIsTimeline | src/contract_evidence_os/memory/matrix.py:2132-2136 | the timeline order of a storyline that arrived in order is its order of writing, through two stable sorts |
| Timeline.SegmentsTile | src/contract_evidence_os/memory/matrix.py:2166-2168 | on a supersession chain each segment ends where the next one starts |
| Runs.ReachableTiling | src/contract_evidence_os/memory/matrix.py:2125-2206 | after every run, where the standing facts of a storyline arrived in order, its rebuilt timeline tiles it |
| TimelineStore.ReconstructStores | src/contract_evidence_os/memory/matrix.py:2145-2206 | after a reconstruction the stored segments about the asked subject and predicate are exactly the fresh ones, in order, and all other segments are as before |
| TimelineStore.ReconstructTwice | src/contract_evidence_os/memory/matrix.py:2145-2206 | reconstructing twice stores as many segments as once, with the same states and supporting facts |
| TimelineStore.ProjectStateAfter | src/contract_evidence_os/memory/matrix.py:2297-2335 | a project state read after a reconstruction counts the segments minus the distinct states and names each segment |
| TimelineStore.ProjectStateStores | src/contract_evidence_os/memory/matrix.py:2303-2339 | a project state stores a timeline exactly when the subject has none, and names the stored segments in order |
| Integrity.WriteSemanticGrounded | src/contract_evidence_os/memory/matrix.py:1450-1469 | consolidating a semantic candidate keeps every visible pointer aimed at visible facts of its own scope |
| Integrity.WriteSemanticComplete | src/contract_evidence_os/memory/matrix.py:1459-1469 | consolidation keeps a complete index complete |
| Integrity.KeysCalledFor | src/contract_evidence_os/memory/matrix.py:1459-1469 | a grounded and complete index has exactly the keys that its visible facts call for |
| Integrity.TombstoneScopeDeletes | src/contract_evidence_os/memory/matrix.py:1486-1518 | deleting a scope hides all its episodes, facts, pointers, patterns and durative records, and nothing of another scope |
| Integrity.SegmentsSurvive | src/contract_evidence_os/memory/matrix.py:1486-1518 | a deletion leaves the visible timeline segments of every scope as they were, those of the deleted scope included |
| Integrity.DeletedCountsZero | src/contract_evidence_os/memory/matrix.py:1486-1518 | deleting a deleted scope counts zero and changes nothing |
| Pointers.BuryAllUnique | src/contract_evidence_os/memory/matrix.py:3977-3992 | burying any list of targets, repetitions included, never buries a target twice |
| Integrity.WriteProceduralKeeps | src/contract_evidence_os/memory/matrix.py:1470-1480 | consolidating a procedural candidate keeps the index grounded and complete, though its pointer names no fact |
| Integrity.TombstoneScopeUnique | src/contract_evidence_os/memory/matrix.py:3977-3992 | deletion never writes a second tombstone for a target |
| Restoration.HardPurgeGrounded | src/contract_evidence_os/memory/matrix.py:1694-1965 | a hard purge of any list of kinds leaves no visible pointer at a missing fact |
| Restoration.CascadeReaches | src/contract_evidence_os/memory/matrix.py:1839-1846 | when facts are purged no visible fact pointer of the scope is left, whether or not pointers were requested |
| Restoration.HardPurgeComplete | src/contract_evidence_os/memory/matrix.py:1847-1936 | a purge that takes pointers only together with facts keeps every index complete |
| PurgeLaws.HardPurgeTakes | src/contract_evidence_os/memory/matrix.py:1694-1936 | for any requested kinds, what every one of the eight dictionaries holds afterwards: the visible records of the scope of the requested kinds and the pointers at purged facts are gone, all else stays in order |
| PurgeLaws.HardPurgeReads | src/contract_evidence_os/memory/matrix.py:1694-1936 | what a reader of any scope sees afterwards: nothing of the requested kinds of the purged scope, everything else as before |
| PurgeLaws.PointersRead | src/contract_evidence_os/memory/matrix.py:1839-1936 | the same for pointers, the cascade included |
| PurgeLaws.PurgeOfEverything | src/contract_evidence_os/memory/matrix.py:1703-1723 | a purge that names no kind leaves nothing of the scope to be seen, of any kind |
| Restoration.RebuildCompletes | src/contract_evidence_os/memory/matrix.py:3383-3422 | a rebuild leaves the index of its scope grounded and complete |
| Restoration.RebuildIdle | src/contract_evidence_os/memory/matrix.py:3386-3393 | a rebuild of a complete index writes nothing |
| Restoration.PurgeThenRebuild | src/contract_evidence_os/memory/matrix.py:3383-3422 | purging only the pointers and rebuilding gives exactly the keys the facts call for, and a second rebuild writes nothing |
| Restoration.RestoresIffComplete | src/contract_evidence_os/memory/matrix.py:3383-3422 | purge and rebuild restore the same fact pointer keys exactly when the index was complete before |
| Deduplication.DeduplicateKeepsKeys | src/contract_evidence_os/memory/matrix.py:4003-4024 | deduplication keeps the set of visible keys and leaves each key on one pointer |
| Deduplication.DeduplicateIdempotent | src/contract_evidence_os/memory/matrix.py:4003-4024 | a second deduplication buries nothing |
| Deduplication.SurvivorIsOldest | src/contract_evidence_os/memory/matrix.py:4003-4024 | the pointer that stays is the oldest of its key, and of equally old ones the one written first |
| Deduplication.DeduplicateRebuild | src/contract_evidence_os/memory/matrix.py:4003-4024 | a rebuild has exactly as much to write after a deduplication as before it |
| Upkeep.PerformMaintains | src/contract_evidence_os/memory/matrix.py:1520-1645 | sleep, rebuilds, the operations loop, its resumption and queries only maintain the scope they name |
| UpkeepLaws.SleepRecords | src/contract_evidence_os/memory/matrix.py:1520-1577 | sleep leaves a fresh durative record for every storyline of two or more facts, a project state for every subject, and no two visible pointers with one key |
| UpkeepLaws.InterruptedThenResumed | src/contract_evidence_os/memory/matrix.py:2645-2756 | an interrupted operations loop, resumed, ends where an uninterrupted one does |
| UpkeepLaws.SelectiveRebuildReaches | src/contract_evidence_os/memory/matrix.py:1579-1645 | a selective rebuild completes the pointers exactly when asked to, and makes project states when asked to, or for artifacts when there are none |
| UpkeepLaws.JobsLeave | src/contract_evidence_os/memory/matrix.py:1520-1645 | what each upkeep job and query leaves: deduplicated pointers, a complete index, snapshots, the asked timeline or project state |
| Runs.ReachableTargets | src/contract_evidence_os/memory/matrix.py:1486-1500 | in every reachable memory every visible pointer target is a visible fact of the scope of the pointer |
| Runs.ReachableRestoration | src/contract_evidence_os/memory/matrix.py:3383-3422 | in every memory reached without a pointer-only purge, purge and rebuild restore exactly the fact pointer keys and a second rebuild is idle |
| Runs.DeletionIsPermanent | src/contract_evidence_os/memory/matrix.py:1486-1518 | after a deletion the visible records of the scope stay empty under every run that writes no new record into it |
| Runs.SecondDeletionCountsZero | src/contract_evidence_os/memory/matrix.py:1486-1518 | after such a run a second deletion counts zero, changes nothing, and tombstones are unique |
| Runs.DeletedDurativeNeverReturns | src/contract_evidence_os/memory/matrix.py:1534 | durative names do not name a run, so a durative record written after its deletion is hidden in every later memory |
| Runs.StepWrites | src/contract_evidence_os/memory/matrix.py:1450-1484 | what each writing step adds where a reader sees it: an episode, fact, pattern or explicit record of its scope, or new statuses of exactly the listed facts |
| Repair.AdviceRule | src/contract_evidence_os/memory/matrix.py:3521-3534 | untrained: apply exactly if facts plus states are at most five; trained: exactly (2,2) up to signal weight 4 and (3,2) up to 1 |
| RepairRecords.SafetySteps | src/contract_evidence_os/memory/matrix.py:3527-3531 | every fact and every state beyond two costs 0.15 of the safety score |
| RepairRecords.LearningSteps | src/contract_evidence_os/memory/matrix.py:1213-1226 | every hold adds 0.04 and every rollback 0.08 to the learned penalty, up to 0.3, and half of it to the bar |
| RepairRecords.CanaryAssesses | src/contract_evidence_os/memory/matrix.py:3521-3560 | the assessment a canary records states the sizes of the conflict it found, its score, that less the learned penalty, and the verdict |
| RepairRecords.DetectionRecords | src/contract_evidence_os/memory/matrix.py:2341-2380 | detection records exactly when the active facts across the scopes state two or more things, all of them, and the state of one that starts latest |
| RepairLearning.VerdictRule | src/contract_evidence_os/memory/matrix.py:2390-2399 | what a canary recommends, for every desk, from the conflict it finds and the controller it loads |
| RepairLearning.Ratchet | src/contract_evidence_os/memory/matrix.py:1205-1231 | once a run of a fresh engine has learned a signal weight above four for a scope group, no later canary on a list filed under its key recommends apply, in any continuation whose trainings under that key are of the same scopes |
| RepairLearning.StepKeepsHeavyIff | src/contract_evidence_os/memory/matrix.py:1205-1231 | exactly which step undoes it: a training filed under the same key whose own logs hold a weight of at most four |
| RepairLearning.RunKeepsHeavyIff | src/contract_evidence_os/memory/matrix.py:1205-1231 | it lasts all through a run exactly when no step of the run is such a training |
| RepairLearning.TrainingDecides | src/contract_evidence_os/memory/matrix.py:1205-1231 | after a training of any group filed under the key, the canary on two facts in two states applies exactly when the logs of the trained group hold a weight of at most four |
| RepairSignals.CanaryTeaches | src/contract_evidence_os/memory/matrix.py:1205-1212 | a canary that holds over a conflict is one hold signal more for exactly the groups of its scopes; one that applies or finds nothing is none |
| RepairSignals.ApplyTeachesNothing | src/contract_evidence_os/memory/matrix.py:1205-1213 | an apply is no signal |
| RepairSignals.RollbackTeaches | src/contract_evidence_os/memory/matrix.py:1205-1213 | a rollback is one rollback signal more for exactly the groups of the scopes of its repair |
| RepairSignals.SignalsOfRun | src/contract_evidence_os/memory/matrix.py:1205-1213 | over every run of a fresh engine the logs hold exactly its signals, group by group: as many holds as canaries held, as many rollbacks as were done |
| RepairSignals.TrainedVerdict | src/contract_evidence_os/memory/matrix.py:1205-1231 | after any run and a training, the canary on two facts in two states applies exactly when the canaries of the run that held and twice its rollbacks are at most four |
| RepairLearning.ReachableFromLogs | src/contract_evidence_os/memory/matrix.py:1205-1231 | in every run of a fresh engine what is stored for a group is learned from signal counts that its logs still reach |
| RepairLearning.GroupKeyIff | src/contract_evidence_os/memory/matrix.py:442-443 | over scope keys without the separator two lists share a key exactly when they are rearrangements of each other |
| RepairLearning.ReadableOwnKey | src/contract_evidence_os/memory/matrix.py:442-443 | in runs that train such groups only, every such group has its key to itself, so the ratchet holds |
| RepairRuns.RatchetSlips | src/contract_evidence_os/memory/matrix.py:442-449 | a run ratchets the scopes a and b so that their canary holds; training a single scope whose key is the joined key of the two then makes the same canary apply, and a list that names b twice applies even before |
| RepairRuns.ReachableValid | src/contract_evidence_os/memory/matrix.py:2341-2544 | in every run of a fresh engine repairs and assessments name issued identifiers only |
| RepairLaws.RepairConverges | src/contract_evidence_os/memory/matrix.py:2341-2484 | whatever conflict a detection finds, applying its repair with no write in between succeeds, leaves exactly one active fact, which states the recommended object, and detection finds nothing |
| RepairRuns.ReachableConverges | src/contract_evidence_os/memory/matrix.py:2341-2484 | the same on every desk reached by a run of a fresh engine, with nothing assumed |
| RepairLaws.CanaryGate | src/contract_evidence_os/memory/matrix.py:2382-2435 | after a canary, applying its repair converges when the verdict was apply, and raises ValueError when it was not |
| RepairLaws.BackgroundNeverRaises | src/contract_evidence_os/memory/matrix.py:3246-3261 | one group of the background loop never raises, and when its canary says apply its conflict is gone afterwards |
| RepairLaws.BackgroundLoopNeverRaises | src/contract_evidence_os/memory/matrix.py:3236-3261 | the whole repair part of background maintenance never raises, whatever is pending |
| RepairLaws.BacklogStays | src/contract_evidence_os/memory/matrix.py:3236-3261 | over any groups the loop applies only repairs its own canaries record: every repair recorded before is there afterwards, unchanged |
| RepairRuns.ReachableBackground | src/contract_evidence_os/memory/matrix.py:3236-3261 | on every desk reached by a run of a fresh engine the loop returns and leaves every recorded repair as it was |
| RepairLaws.RollbackUndoes | src/contract_evidence_os/memory/matrix.py:2486-2544 | a rollback writes back the status every fact had before the last apply, and its active and restored counts agree with it |
| RepairLaws.ApplyThenRollback | src/contract_evidence_os/memory/matrix.py:2425-2544 | with no write in between, apply and rollback leave all facts exactly as they were |
| RepairRecords.ApplyRecords | src/contract_evidence_os/memory/matrix.py:2437-2482 | an apply marks its repair and logs the statuses before, one active fact after, and how many were active before |
| RepairRecords.RollbackRecords | src/contract_evidence_os/memory/matrix.py:2507-2542 | a rollback marks its repair and logs against the apply it undoes |
| RepairRuns.RollbackAgain | src/contract_evidence_os/memory/matrix.py:2486-2544 | a rollback can be repeated: each time it succeeds, writes the same statuses, and adds a signal against the scope group |
| RepairRuns.RollbacksRatchet | src/contract_evidence_os/memory/matrix.py:2486-2544 | rolling one repair back three times and training is enough to ratchet its scope group |
| RepairLaws.ApplyKeepsOneIff | src/contract_evidence_os/memory/matrix.py:2443-2445 | applying keeps one active fact per storyline exactly when no active fact outside the repair shares the storyline it activates |
| RepairLaws.ApplyToActiveKeepsOne | src/contract_evidence_os/memory/matrix.py:2443-2445 | a repair whose facts are all still active keeps every storyline unique |
| RepairLaws.RollbackKeepsOneIff | src/contract_evidence_os/memory/matrix.py:2502-2504 | rolling back keeps storylines unique exactly when no fact activated since then shares a storyline it reactivates |
| RepairRuns.LateApplyBreaks | src/contract_evidence_os/memory/matrix.py:2425-2448 | a write to the recommended storyline between detection and apply always ends in two active facts on it |
| RepairRuns.LateApplyHappens | src/contract_evidence_os/memory/matrix.py:2425-2448 | a run of a fresh engine in which that happens |
| RepairLaws.RepairedStaysRelevant | src/contract_evidence_os/memory/matrix.py:2439-2448 | a repair closes no interval: a fact it supersedes still answers every as-of query it answered before |
| Admission.PassesIff | src/contract_evidence_os/memory/matrix.py:1335-1428 | exactly which candidates govern_candidate lets through, under every policy and controller |
| Admission.TrainingShrinks | src/contract_evidence_os/memory/matrix.py:1153-1203 | under one policy, whatever a controller trained on more traces lets through, one trained on fewer lets through |
| Admission.UntrainedAdmitsMost | src/contract_evidence_os/memory/matrix.py:1335-1428 | whatever a trained controller lets through, the untrained one does, even if the policy has changed since the training |
| Admission.RiskyNeverPasses | src/contract_evidence_os/memory/matrix.py:1335-1428 | no policy and no controller lets a candidate with poison risk 0.8 or privacy risk 0.9 through |
| Admission.RiskyNeverWritten | src/contract_evidence_os/memory/matrix.py:1450-1484 | over every run of submissions, governings, trainings, policy changes and purges, consolidating such a candidate leaves the memory as it is |
| AdmissionLaws.ActionIff | src/contract_evidence_os/memory/matrix.py:1335-1428 | which of the eight actions govern_candidate takes, for every policy and controller |
| AdmissionLaws.UntrainedAction | src/contract_evidence_os/memory/matrix.py:1353-1391 | the untrained gate without a policy, in numbers |
| AdmissionLaws.OverrideObjectionsIdle | src/contract_evidence_os/memory/matrix.py:1400-1413 | the objections to override signals never decide: what admission accepts was never scored for quarantine or blocking |
| AdmissionLaws.NamedEventsCount | src/contract_evidence_os/memory/matrix.py:1167-1170 | the four kinds of event found by a part of the name count wherever that part stands |
| AdmissionLaws.TrainNone | src/contract_evidence_os/memory/matrix.py:1172-1185 | without a trace training learns no boost and no weight but the base one, and keeps the thresholds of the policy above their floors |
| AdmissionLaws.TrainOneMore | src/contract_evidence_os/memory/matrix.py:1153-1196 | one more trace raises each boost and weight by the events of its own kind, up to its cap, and the thresholds follow their boosts |
| AdmissionLaws.PoisonRateCounts | src/contract_evidence_os/memory/matrix.py:1171 | a poison signal rate of one half or more counts as one suspicious event |
| AdmissionLaws.SignalsMoveTheirOwn | src/contract_evidence_os/memory/matrix.py:1153-1196 | a kind of event that a trace does not carry moves nothing that is learned from that kind |
| AdmissionLaws.SignalsDecide | src/contract_evidence_os/memory/matrix.py:1153-1428 | over whole runs from an open gate, each kind of event changes the decision on one candidate from a semantic write to confirmation or quarantine |
| AdmissionLaws.ConsolidationAdds | src/contract_evidence_os/memory/matrix.py:1450-1484 | what a consolidation adds under each decision: a fact, a pattern or an explicit record, with its pointer, or nothing |
| LeaseLaws.RunDueEffect | src/contract_evidence_os/memory/matrix.py:2966-3027 | due runs by nobody or by a known worker, exactly: one run per due schedule that is not under another live lease, in listing order, and the books of the caller |
| LeaseLaws.ClaimFirstEffect | src/contract_evidence_os/memory/matrix.py:2988-2992 | a due run by an unknown worker claims the first schedule it would run and then raises |
| LeaseLaws.CycleEffect | src/contract_evidence_os/memory/matrix.py:2903-2920 | a worker cycle, exactly, between its two heartbeats |
| LeaseLaws.UninterruptedCycle | src/contract_evidence_os/memory/matrix.py:2966-3027 | an uninterrupted cycle runs each due, free schedule exactly once, gives up exactly those claims, keeps the active runs, and leaves them not due exactly if the cadence is positive |
| LeaseLaws.ReclaimEffect | src/contract_evidence_os/memory/maintenance_service.py:438-472 | a reclaim, exactly: stale workers end with empty books and every schedule one of them lists is freed, whoever holds it |
| LeaseRuns.RegisterKeepsBooksIff | src/contract_evidence_os/memory/maintenance_service.py:398-421 | a registration keeps the books exactly when nothing is claimed under the name |
| LeaseRuns.StepKeepsBooksIff | src/contract_evidence_os/memory/matrix.py:2966-3085 | any step keeps the books exactly when it is fair: all other steps than a registration over claims and a direct run by an unknown worker always do |
| LeaseRuns.RunKeepsBooks | src/contract_evidence_os/memory/matrix.py:2976-3025 | after every fair run a claimed schedule is claimed by a registered worker that lists it, under a lease |
| LeaseRuns.FreshIsFair | src/contract_evidence_os/memory/maintenance_service.py:398-421 | registering a fresh worker id is always fair |
| LeaseRuns.ReclaimedClaimNothing | src/contract_evidence_os/memory/maintenance_service.py:438-472 | after a reclaim in a fair run no schedule is claimed by a worker it marked stale |
| LeaseRuns.FailoverAfterReclaim | src/contract_evidence_os/memory/maintenance_service.py:453-471 | once its holder is reclaimed a schedule is completed by the next cycle of any worker that finds it due, whatever lease was left |
| LeaseRuns.ClaimSurvivesIff | src/contract_evidence_os/memory/maintenance_service.py:453-466 | a claim survives a reclaim exactly when no reclaimed worker lists the schedule |
| LeaseRuns.OverReleaseHappens | src/contract_evidence_os/memory/maintenance_service.py:453-466 | a reachable case: a schedule taken over under a lease until 1400 is freed at 400 by the reclaim of its former holder |
| LeaseTiming.LeaseExcludes | src/contract_evidence_os/memory/matrix.py:2976-2991 | while a lease runs, no sequence of registrations, heartbeats, plans, and cycles or direct runs of other workers touches the schedule |
| LeaseTiming.OthersTakeIff | src/contract_evidence_os/memory/matrix.py:2979-2986 | the cycle of another worker takes a due schedule exactly once the lease has run out |
| LeaseTiming.HolderRenews | src/contract_evidence_os/memory/matrix.py:2979-2991 | the holder renews its own lease, even while it runs |
| LeaseTiming.ResumeIgnoresLease | src/contract_evidence_os/memory/matrix.py:3037-3072 | resuming an interrupted run completes its schedule and drops the claim whoever holds it, and the run stays interrupted |
| LeaseTiming.ResumesPostpone | src/contract_evidence_os/memory/matrix.py:3037-3072 | over any sequence of resumes of one interrupted run each books one more run, and the schedule is next due a cadence after the last |
| LeaseTiming.ResumeLingers | src/contract_evidence_os/memory/matrix.py:3040-3082 | a resume without a worker leaves its finished run among the active runs of the prior holder |
| LeaseTiming.StepLingersIff | src/contract_evidence_os/memory/matrix.py:2966-3085 | such a run stays active until exactly the step at which the worker registers anew or is reclaimed |
| LeaseTiming.RunLingers | src/contract_evidence_os/memory/matrix.py:2966-3085 | so over every run without such a step it is still active |
| LeaseTiming.StaleNeverReclaimed | src/contract_evidence_os/memory/maintenance_service.py:448-450 | a worker once marked stale is never reclaimed again until it registers anew, over every run |
| LeaseTiming.RateBound | src/contract_evidence_os/memory/matrix.py:3008-3011 | under a clock that does not run backwards due completions of a schedule are a cadence apart, so at most floor(T / cadence) + 1 fall into a window of length T |
| LeaseTiming.DueAfterCycle | src/contract_evidence_os/memory/matrix.py:3008-3011 | after an uninterrupted cycle at an instant a schedule of cadence h is due exactly from 3600 h seconds later on |
| LeaseTiming.DueAfterResume | src/contract_evidence_os/memory/matrix.py:3064-3067 | the same after a resume |
| LeaseTiming.DailyOnce | src/contract_evidence_os/memory/matrix.py:3008-3011 | a daily schedule has at most one due completion in any window shorter than 86400 seconds |
| LeaseTiming.ActingIsNotReclaimed | src/contract_evidence_os/memory/maintenance_service.py:448-450 | a worker that beat at an instant is left alone by every reclaim up to the expiry after it |
| LeaseRecords.RegisterRecords | src/contract_evidence_os/memory/maintenance_service.py:398-421 | a registration leaves an idle worker with empty books, in its old place on the list, and nothing else changed |
| LeaseRecords.HeartbeatRecords | src/contract_evidence_os/memory/maintenance_service.py:423-436 | a heartbeat moves the instant and the mode of its worker alone, keeps its staleness and books, and raises on an unknown one |
| LeaseRecords.PlanRecords | src/contract_evidence_os/memory/matrix.py:2938-2964 | a planned schedule is enabled, free, never run, and due from its start on |
| LeaseRecords.CycleRecords | src/contract_evidence_os/memory/matrix.py:2987-3016 | what a cycle leaves of a schedule it runs: completed and free, or, when interrupted, held under a lease of the asked length and still due |
| LeaseRecords.ListedLatestFirst | src/contract_evidence_os/memory/matrix.py:857-871 | schedules are run in the order of their last update, the latest first |
| LeaseRecords.ResumeRecords | src/contract_evidence_os/memory/matrix.py:3037-3050 | the run a resume records, and in whose name |
| LeaseRecords.DirectRunBeatsIff | src/contract_evidence_os/memory/matrix.py:2991-3025 | a direct run by a known worker moves its heartbeat and mode exactly when it runs something |
| LeaseEngine.Engine.Register | src/contract_evidence_os/memory/maintenance_service.py:398-421 | registration on the worker dictionary, as the protocol specifies |
| LeaseEngine.Engine.Heartbeat | src/contract_evidence_os/memory/maintenance_service.py:423-436 | the heartbeat updates one worker record in place, or raises and changes nothing |
| LeaseEngine.Engine.Plan | src/contract_evidence_os/memory/matrix.py:2938-2964 | a new schedule record under a fresh identifier |
| LeaseEngine.Engine.RunDue | src/contract_evidence_os/memory/matrix.py:2966-3027 | the loop over the listed schedules with its in-place updates refines the specified run, including what it leaves behind when it raises |
| LeaseEngine.Engine.RunCycle | src/contract_evidence_os/memory/matrix.py:2903-2920 | heartbeat, due runs, heartbeat, as specified |
| LeaseEngine.Engine.Resume | src/contract_evidence_os/memory/matrix.py:3029-3085 | resumption with its in-place updates, including what it leaves behind when it raises |
| LeaseEngine.Engine.Reclaim | src/contract_evidence_os/memory/maintenance_service.py:438-472 | the nested loops over stale workers and their listed schedules refine the specified reclaim |
| Matrix.MemoryMatrix.ConsolidateSemantic | src/contract_evidence_os/memory/matrix.py:3612-3681 | the loop that closes prior facts in place, the new fact and its durative record refine the specified write |
| Matrix.MemoryMatrix.ConsolidateFact | src/contract_evidence_os/memory/matrix.py:1459-1469 | the fact and its pointer, as specified |
| Matrix.MemoryMatrix.RebuildMissing | src/contract_evidence_os/memory/matrix.py:3383-3422 | the loop over the listed facts refines the specified rebuild and returns how many pointers were missing |
| Matrix.MemoryMatrix.DeleteScope | src/contract_evidence_os/memory/matrix.py:1486-1518 | the five loops refine the specified deletion and count exactly the records that were visible |
| Matrix.MemoryMatrix.DeduplicatePointers | src/contract_evidence_os/memory/matrix.py:4003-4024 | the loop with its set of seen keys refines the specified deduplication and counts the duplicates |
| Matrix.MemoryMatrix.Purge | src/contract_evidence_os/memory/matrix.py:1694-1965 | the loop over the requested kinds, popping records, and the cascade refine the specified purge |
| Matrix.GroupByState | src/contract_evidence_os/memory/matrix.py:2137-2143 | the grouping loop computes the maximal runs |
| Matrix.MemoryMatrix.ReconstructTimeline | src/contract_evidence_os/memory/matrix.py:2125-2206 | popping stale segments and building new ones, each patched into the one before it, refines the specified timeline |
| Matrix.MemoryMatrix.ReconstructProjectState | src/contract_evidence_os/memory/matrix.py:2297-2339 | stored or rebuilt timeline, snapshot and contradiction count, as specified |
| Matrix.MemoryMatrix.SleepConsolidation | src/contract_evidence_os/memory/matrix.py:1520-1577 | durative records, deduplication and project states, as specified |
| RepairEngine.FindLatest | src/contract_evidence_os/memory/matrix.py:2361 | the loop behind `max` returns the first of the facts that start latest |
| RepairEngine.CountRollbacks | src/contract_evidence_os/memory/matrix.py:1205-1213 | the nested loops over repairs and their logs count the rollback signals of the scope group |
| RepairEngine.RepairDesk.DetectConflict | src/contract_evidence_os/memory/matrix.py:2341-2380 | detection over the live dictionaries, as specified |
| RepairEngine.RepairDesk.TrainController | src/contract_evidence_os/memory/matrix.py:1205-1231 | the controller is recomputed from the logs, as specified |
| RepairEngine.RepairDesk.RunCanary | src/contract_evidence_os/memory/matrix.py:2382-2423 | detection, assessment and verdict, as specified |
| RepairEngine.RepairDesk.ApplyContradictionRepair | src/contract_evidence_os/memory/matrix.py:2425-2484 | the gate, the in-place status writes, the refreshed project states and the logs refine the specified apply; when it raises nothing has changed |
| RepairEngine.RepairDesk.RollbackContradictionRepair | src/contract_evidence_os/memory/matrix.py:2486-2544 | the in-place restoration refines the specified rollback; when it raises nothing has changed |
| AdmissionEngine.CountTraces | src/contract_evidence_os/memory/matrix.py:1153-1173 | the loop over the traces accumulates the five event counts |
| AdmissionEngine.AdmissionDesk.TrainAdmission | src/contract_evidence_os/memory/matrix.py:1153-1203 | training stores what the counts lead to, as specified |
| AdmissionEngine.AdmissionDesk.Consolidate | src/contract_evidence_os/memory/matrix.py:1450-1484 | only a standing decision for the semantic, procedural or explicit memory writes, and it writes what is specified |
| Schema.BuildModel | src/contract_evidence_os/base.py:39-49 | the field loop of from_dict refines the specified decoding, its first error included |
| SchemaLaws.RoundTrip | src/contract_evidence_os/base.py:66-107 | for every well-typed value decoding its encoding succeeds, encodes the same again, and gives the value back exactly when no instant or model stands under Any or a multi-way union |
| SchemaLaws.FromDictInvertsIff | src/contract_evidence_os/base.py:29-49 | from_dict inverts to_dict on a model exactly under that condition |
| SchemaLaws.InstantUnderAny | src/contract_evidence_os/base.py:29-49 | a model with an instant under Any does not come back |
| SchemaLaws.FromDictSucceedsIff | src/contract_evidence_os/base.py:36-49 | a payload whose parts decode makes a model exactly when every field is supplied or has a default and the version is a non-empty string; which error otherwise |
| SchemaLaws.FromDictBuilds | src/contract_evidence_os/base.py:39-49 | what from_dict builds: each field from the payload where it names the field, and otherwise with the value of its default |
| SchemaLaws.IteratedUnderList | src/contract_evidence_os/base.py:77-82 | a string under a list comes back as its characters, a dictionary as its keys |
| SchemaLaws.MismatchesRaise | src/contract_evidence_os/base.py:77-107 | which values raise under which annotations, and whether a type or a value error |
| SchemaLaws.UnknownKeysIgnored | src/contract_evidence_os/base.py:39-49 | keys that name no field do not matter |
| EnvFile.EnvValues | src/contract_evidence_os/console/service.py:58-68 | the line loop computes the parsed values |
| EnvFile.WriteEnvValues | src/contract_evidence_os/console/service.py:70-80 | the merging loop and the printed lines refine the specified text |
| EnvFileLaws.ParsePrintParse | src/contract_evidence_os/console/service.py:58-80 | for every text, printing what it parses to and parsing again changes nothing |
| EnvFileLaws.PrintRoundTripsIff | src/contract_evidence_os/console/service.py:58-80 | printed values parse back to themselves exactly when every entry is trimmed, on one line, and has a key without `=` or leading `#` |
| EnvFileLaws.WriteThenParseIff | src/contract_evidence_os/console/service.py:70-80 | parsing after a write gives the old values with empty updates removed and the others overriding, exactly when every update that stays is such an entry |
| EnvFileLaws.MergeLooksUp | src/contract_evidence_os/console/service.py:71-76 | which value each key has after the merge |
| EnvFileLaws.BreaksSeparate | src/contract_evidence_os/console/service.py:62-67 | every character at which Python breaks lines separates two assignments |
| EnvFileLaws.SplitAtBoth | src/contract_evidence_os/console/service.py:62 | a carriage return and a line feed together end one line |
| EnvFileLaws.BlanksSurround | src/contract_evidence_os/console/service.py:63-67 | every blank that Python strips may stand around an assignment |

## Left out

- The repository branches of every operation, JSON, artifact files and their health, drift and repair: storage.
- Relevance ranking, key terms, evidence packs, dashboards, receipts and continuity text: reporting.
- The text matching behind risk and feature signals; risks and signals are given as reals.
- Rounding of floating-point scores; scores are exact reals.
- Random identifiers; identifiers come from one counter and are fresh.
- The text of instants; the serializer takes a printer and a parser that inverts it.
- The clock is read once per operation, so records written by one operation carry one instant.
- Record kinds that are deleted and purged but not otherwise part of the memory, such as working snapshots and
  evidence packs; a purge of such a kind leaves the modelled memory alone.
- The counts and manifests of a hard purge, which count records with two identifiers twice.
- `selective_purge_scope`, promotions, rollouts, canaries of the admission and maintenance controllers: no new state
  machine beside the ones modelled.
- Artifacts in `rebuild_indexes` and `selective_rebuild_scope`; their effect on snapshots is kept.
- The stored cross-scope timeline; its segments are a function of the listed facts.
- Records of canary runs, deletion runs and consolidation runs beyond the verdicts and counts they report.
- The order of the sorted lists of claimed schedules and active runs of a worker; they are sets.
- Background runs that no schedule started, and an empty string as worker id of a resume.
- Payloads under a model annotation that are not dictionaries, and attribute errors, are type errors; dataclasses that
  are not schema models are not encoded.
- Reading and writing the environment file itself; a missing file is an empty text.
- LeaseRuns.RunKeepsBooks: runs in which a registration clears standing claims, or an unknown worker calls the due
  run directly, are excluded, because they break the books; RegisterKeepsBooksIff and StepKeepsBooksIff say exactly
  when.
- Runs.ReachableChains: runs with repairs are excluded, because a repair reactivates facts without closing
  intervals; ApplyKeepsOneIff and RollbackKeepsOneIff say exactly when one active fact is kept.
- RepairLearning.Ratchet: runs that train other scopes under the key of the group, and canaries on lists filed under
  another key though they name the same set of scopes, are excluded, because there the claim is false, as RatchetSlips
  shows; StepKeepsHeavyIff and GroupKeyIff say exactly when.
- LeaseTiming.LeaseExcludes: resumes, reclaims and runs without a worker are excluded, because they ignore leases.
- Matrix.MemoryMatrix.Purge: the records of kinds that are never changed in place are dropped by their scope and
  visibility rather than popped one identifier at a time.
