# A verified model of AI retrieval's durable bulk work, resource ledgers and result pipeline

This project models the stateful core of the `ai_retrieval` package in Dafny and proves what it promises over every
run. Four parts fit together.

**Durable bulk work.** A work item is a record with a lease, a checkpoint history and at most one terminal record.
`Repository` holds each repository transaction as a function on one item's cell and on the tables around it;
`DurableRepository` is the object that updates those tables in place, each method proved equal to its transaction, and
`ObjectStore` the content-addressed store beside it.
`WorkHistory` and `RepositoryRuns` prove what every sequence of operations keeps and who could write when. `Broker`,
`Delivery` and `Relay` carry a submission through the outbox, the at-least-once broker and the claim, with callers that
may stop between any two of their steps. `Worker` is the worker's loop with its fallback writes; `Workers` interleaves any
number of workers, each with an identity, an owner name, and a claim, a reading, a write and a fallback of its own; and
`LateWorkers` proves exactly when crashes, limited resumes and late workers make no difference to where an item ends, and
`StageLimits` how far a limited resume gets. `Submissions` says what every submission is answered, now and when repeated.
`Pipeline` proves that the stages an item goes through are those of doing the work straight through in memory.
`Effects` follows one write-back call sub-step by sub-step and cuts it anywhere, and `EffectAnswers` says which answer each
reply of the target leads to. `TerminalReports` and `DeadLetters` cover reporting and evidence.

**Resource ledgers.** `Budget` (multi-scope reservations), `Capacity` and `CapacityBounds` (hierarchical concurrency with
a rolling minute), `CapacityCalls`, which restates their promises over the calls and answers alone, `Router` and `Scheduling`
(selection and order), `Fairness`, `Waiting` and `Overtaking` (how long a tenant waits under the round-robin order), and
`Invocation`, which uses both ledgers for each pack of a task.

**Pack, validate, split again.** `Packing`, `Validation` with `ValidationReasons`, and `TaskValidation` with `TaskRules`.

**Row order.** `Ordering` with `OrderMeaning`, over `Sorting`.

Each `...Control` module, and `BulkCoordination`, holds the classes and loops of the corresponding source, proved against
the functions of the specification module of the same area; the lemmas are about those functions.

What the model takes as given:

- Every repository, broker, ledger and pool method is one atomic step, because each holds its lock throughout.
- Identifiers are text, instants and durations are integer microseconds, and a clock is a function from its n-th reading.
- Identifiers drawn by `reserve` and `receive` are fresh and not blank where a theorem says so; what happens otherwise is
  stated exactly by `Budget.ReserveConservesIff` and `Broker.ReceiveConservesIff`.
- Times do not decrease where a theorem is about leases or the rolling minute; of several workers, each keeps its own clock
  and none reads an earlier time after a refusal.
- An effect adapter keeps to `bulk/ports.py:91-101`: a shared transaction commits the mutation with its effect record, a
  raised error or a roll-back means nothing was applied, and a definite verification answer is true of the key and digest
  it was asked about: absent means no mutation of that digest was applied under the key.
- The content digest is an arbitrary function; it tells contents apart where a theorem says so.

Where code and documentation differ, or a natural claim fails, the code is kept and the exact condition is proved:

- A blank or repeated reservation identifier leaves a debit behind (`Budget.ReserveConservesIff`); a refused delivery
  identifier loses a notification (`Broker.ReceiveConservesIff`).
- A non-shared key can carry two different mutations. A key carries at most one in every run exactly when its transactions
  are shared or all calls under it ask for the same digest (`Effects.AtMostOneIff`, `Effects.TwoMutationsRun`).
- Two workers that share an owner name can end an item wrongly. A late worker's refused checkpoint makes the dispatch end the
  item under the name that holds the lease, and a stage it reads late is processed with the result of its older claim
  (`LateWorkers.SharedNameRun`, `Pipeline.MixedReadingsRun`); `run_bulk` gives every resume the name "worker-resumed". Late
  workers make no difference exactly when no two share a name (`LateWorkers.OnPathIff`, `LateWorkers.CrashResumeIff`,
  `Pipeline.LateStoryIff`).
- The round-robin order starts after the tenant served last, but tenants stand in the order of their oldest queued operations,
  which changes as they are served. So a tenant can be served twice before another whose oldest operation can be admitted all
  the time (`Overtaking.OvertakenInTurn`). That never happens, whatever is enqueued, exactly when no other tenant has exactly
  one older operation queued (`Overtaking.OvertakenTwiceIff`); and each time it happens an older operation is gone
  (`Waiting.OvertakingCostsAge`).
- Validation compares identifiers as text under the field the rules name, but the row order looks values up under `id`
  (`TaskValidation.PackAcceptedExactly`, with two concrete inputs that raise).
- Leases fence by owner name (`WorkHistory.RenewalIff`, `CheckpointIff`, `TerminalIff`), and executing a claim again counts
  usage again (`DeadLetters.ReplayCountsUsage`).

## Model

| member | source | states |
|---|---|---|
| WorkHistory.TraceInvariant | src/ai_retrieval/bulk/memory.py:87-192 | After any operations on a submitted item: stages, attempts and sequence numbers 1..n grow strictly along its history, a lease is held exactly while in progress, PENDING means no attempt, COMPLETED means exactly one of a terminal record and a final checkpoint, and the attempt count is the number of acquired claims |
| WorkHistory.PerformKeeps | src/ai_retrieval/bulk/memory.py:87-192 | Claim, renew, checkpoint and terminalize each keep the item's invariant, whatever their arguments |
| WorkHistory.CompletedIsFinal | src/ai_retrieval/bulk/memory.py:87-192 | Identity, payload and configuration never change, and a completed item never changes at all, under any further operations |
| WorkHistory.TenuresInvariant | src/ai_retrieval/bulk/memory.py:87-141 | With a clock that does not go back, the intervals in which successive claimants could write mirror the lease and are disjoint |
| WorkHistory.LeasesDisjoint | src/ai_retrieval/bulk/memory.py:87-111 | An earlier claimant's interval ends no later than the next one's begins |
| WorkHistory.WritesAreLeased | src/ai_retrieval/bulk/memory.py:104-192 | Every renewal, checkpoint or terminal record that changed the item was made by the latest claimant, within its interval |
| WorkHistory.ReclaimedCannotWrite | src/ai_retrieval/bulk/memory.py:257-261 | A worker whose lease another owner reclaimed changes nothing until it claims again |
| WorkHistory.RenewalIff | src/ai_retrieval/bulk/memory.py:104-111 | A renewal takes effect if and only if it carries the latest claimant's name and comes before its expiry |
| WorkHistory.CheckpointIff | src/ai_retrieval/bulk/memory.py:113-141 | A checkpoint takes effect if and only if it comes under the latest claimant's name before its expiry, with a stated outcome, for a stage later than the last |
| WorkHistory.TerminalIff | src/ai_retrieval/bulk/memory.py:166-192 | A terminal record is written if and only if it comes under the latest claimant's name before its expiry and states its failure properly |
| WorkAnswers.ClaimIff | src/ai_retrieval/bulk/memory.py:87-102 | A claim is granted if and only if the item is not completed and the latest claimant's interval is over; it then holds the lease for the duration at one more attempt, and otherwise changes nothing |
| WorkAnswers.RenewalAnswers | src/ai_retrieval/bulk/memory.py:104-111 | Within the latest claimant's interval and name a renewal holds the lease for the duration from now; otherwise it is refused |
| WorkAnswers.CheckpointAnswers | src/ai_retrieval/bulk/memory.py:113-141 | What a checkpoint is answered and records in every case: later, same, earlier stage, blank outcome, lost lease |
| WorkAnswers.TerminalAnswers | src/ai_retrieval/bulk/memory.py:166-192 | What a terminal record is answered and writes in every case: recorded before, lost lease, badly stated, new |
| WorkAnswers.UnknownIsRefused | src/ai_retrieval/bulk/memory.py:250-278 | For an unknown work item every transaction is refused, bad lease arguments first |
| RepositoryRuns.RunConsistent | src/ai_retrieval/bulk/memory.py:53-69 | Over any run of submissions, work and publication, item ids and idempotency keys stay in bijection within a job, and histories and terminal records belong to items |
| Submissions.SubmissionIff | src/ai_retrieval/bulk/memory.py:53-69 | In every reachable repository a submission is accepted if and only if its key, item id and event id are unused, when it is entered with its event, or its key holds the same work, when the item is returned as it stands and nothing changes; every other one is a conflict |
| Submissions.SubmittingAgain | src/ai_retrieval/bulk/memory.py:53-69 | At any later time of any run an accepted submission made again returns the item as it then stands and changes nothing, and a different one under its key conflicts |
| RepositoryRuns.RunProjects | src/ai_retrieval/bulk/memory.py:53-192 | In any run each item is exactly what its own operations make it: work on one item never touches another |
| RepositoryRuns.ReachableItem | src/ai_retrieval/bulk/memory.py:87-192 | Every item of every reachable repository satisfies the item invariant, with one attempt per acquired claim |
| RepositoryRuns.RepositoryFencing | src/ai_retrieval/bulk/memory.py:257-261 | Over the whole repository, whoever changes an item other than by claiming holds the lease of its latest claim at that moment |
| Announcements.EventsAreKept | src/ai_retrieval/bulk/memory.py:53-69 | Over any run events are never lost or altered, and stay published at the time they first were |
| Announcements.EventsAnnounce | src/ai_retrieval/bulk/coordinator.py:30-44 | In every reachable repository every event announces an item as it was submitted |
| Announcements.MarkAnswers | src/ai_retrieval/bulk/memory.py:155-164 | Marking publishes a known event once; an event published before is answered as it is, an unknown one is an error |
| Announcements.PendingInOrder | src/ai_retrieval/bulk/memory.py:151-153 | The pending events are exactly the unpublished ones, each once, in the order of their creation |
| DurableRepositoryControl.DurableRepository.CreateWithOutbox | src/ai_retrieval/bulk/memory.py:53-69 | Item, identity and outbox record are entered together, or nothing is; the same submission again returns the stored item, a different one conflicts |
| DurableRepositoryControl.DurableRepository.ClaimWork | src/ai_retrieval/bulk/memory.py:87-102 | Updates the tables as the claim transaction does, with its answer and error cases |
| DurableRepositoryControl.DurableRepository.Renew | src/ai_retrieval/bulk/memory.py:104-111 | Updates the tables as the renewal transaction does |
| DurableRepositoryControl.DurableRepository.SaveCheckpoint | src/ai_retrieval/bulk/memory.py:113-141 | Updates the tables as the checkpoint transaction does: refused without the lease, backwards or changed stages; the matching duplicate keeps the lease |
| DurableRepositoryControl.DurableRepository.ResumeState | src/ai_retrieval/bulk/memory.py:143-149 | Returns the item, its latest checkpoint and the stage after it |
| DurableRepositoryControl.DurableRepository.PendingOutbox | src/ai_retrieval/bulk/memory.py:151-153 | Returns the unpublished outbox records in the order they were created |
| DurableRepositoryControl.DurableRepository.MarkPublished | src/ai_retrieval/bulk/memory.py:155-164 | Marks one record published once; a repeated mark changes nothing |
| DurableRepositoryControl.DurableRepository.Terminalize | src/ai_retrieval/bulk/memory.py:166-192 | Updates the tables as the terminal transaction does: an existing record is returned or conflicts |
| DurableRepositoryControl.DurableRepository.TerminalItems | src/ai_retrieval/bulk/memory.py:194-199 | Returns each terminal record of the job once, sorted by item identifier |
| DurableRepositoryControl.DurableRepository.SaveEffect | src/ai_retrieval/bulk/memory.py:214-226 | Saves at most one effect per key; another one conflicts |
| DurableRepositoryControl.DurableRepository.SaveReconciliation | src/ai_retrieval/bulk/memory.py:228-245 | Saves at most one reconciliation per key; another mutation or reason conflicts |
| DurableRepositoryControl.DurableRepository.RecordPersistenceFailure | src/ai_retrieval/bulk/memory.py:201-204 | Records a persistence failure once |
| Broker.ReceiveConservesIff | src/ai_retrieval/bulk/memory.py:341-350 | Receiving keeps every notification if and only if the queue is empty or the delivery identifier is accepted; otherwise exactly the head is lost |
| Broker.PublishAdds | src/ai_retrieval/bulk/memory.py:337-339 | Publishing adds exactly one notification |
| Broker.RunBalances | src/ai_retrieval/bulk/memory.py:337-361 | Over every run of broker calls, what was published is what the broker holds, what was acknowledged, and what refused delivery identifiers lost |
| Broker.AcknowledgeRemovesOne | src/ai_retrieval/bulk/memory.py:352-354 | An acknowledgement takes out the one notification delivered under its identifier; an unknown one takes nothing |
| Broker.RedeliverConserves | src/ai_retrieval/bulk/memory.py:356-361 | Redelivery keeps every notification |
| Broker.RedeliverUndoesReceive | src/ai_retrieval/bulk/memory.py:341-361 | Redelivery after a receipt leaves the queue it would have left without it: same notifications, same order |
| BulkCoordination.NotificationBroker.Receive | src/ai_retrieval/bulk/memory.py:341-350 | The queue is popped before the identifier is checked, with the specified outcome |
| BulkCoordination.NotificationBroker.Acknowledge | src/ai_retrieval/bulk/memory.py:352-354 | Removes the delivery if it is outstanding and says whether it was |
| BulkCoordination.NotificationBroker.RedeliverUnacknowledged | src/ai_retrieval/bulk/memory.py:356-361 | Puts unacknowledged notifications back in front of the queue, in order, and counts them |
| Delivery.NothingLost | src/ai_retrieval/bulk/coordinator.py:30-72 | In every reachable state of submit, relay, receive, redeliver, claim and acknowledge, cut anywhere, each item still PENDING has an unpublished event or a queued or outstanding notification |
| Delivery.AcknowledgedWasClaimed | src/ai_retrieval/bulk/coordinator.py:54-72 | Every acknowledged delivery belongs to an item that was claimed at least once |
| Delivery.GenuineIsAccepted | src/ai_retrieval/bulk/coordinator.py:57-67 | A delivery the broker issued never fails the metadata check, however old it is |
| Delivery.DoAllKeeps | src/ai_retrieval/bulk/coordinator.py:30-72 | The delivery invariant survives every allowed sequence of steps |
| Relay.RelayIsSteps | src/ai_retrieval/bulk/coordinator.py:46-52 | A relay is a list of publications, each followed by its mark; whole, and cut after any of them, it is an allowed run |
| Relay.RecoveryQueuesPending | src/ai_retrieval/bulk/coordinator.py:46-52 | After any run, redelivery and one complete relay leave the notification of every never-claimed item waiting in the queue |
| BulkCoordination.BulkCoordinator.Submit | src/ai_retrieval/bulk/coordinator.py:30-44 | Stores the payload, enters a pending item that references it with its announcement, returns the stored item, and leaves the repository alone when it is refused |
| BulkCoordination.BulkCoordinator.RelayPending | src/ai_retrieval/bulk/coordinator.py:46-52 | The loop publishes and marks each pending event in order and returns their number |
| BulkCoordination.BulkCoordinator.ClaimDelivery | src/ai_retrieval/bulk/coordinator.py:54-72 | Checks, claims and only then acknowledges; an error acknowledges nothing |
| BulkCoordination.BulkCoordinator.SaveStage | src/ai_retrieval/bulk/coordinator.py:74-84 | Needs an acquired claim; stores the result and then checkpoints under the claim's owner with its reference |
| ObjectStore.PutsAreReadBack | src/ai_retrieval/bulk/memory.py:288-325 | After any run of puts every reference returned passes the hash check, and with a digest that tells contents apart reads back and resolves to what was put |
| ObjectStore.AddressTells | src/ai_retrieval/bulk/memory.py:304-321 | A reference's address tells its kind and its hash |
| ObjectStore.FetchIff | src/ai_retrieval/bulk/memory.py:294-302 | An object is returned if and only if one is stored under the reference and has its hash; the two failures are told apart |
| ObjectStore.ObjectResultStore.PutObject | src/ai_retrieval/bulk/memory.py:318-325 | Stores under the content address unless something is stored there, and returns the reference |
| ObjectStore.ObjectResultStore.Get | src/ai_retrieval/bulk/memory.py:294-302 | Returns the object, or says that it is unknown or does not match its hash |
| BulkCoordination.HandlingIsSteps | src/ai_retrieval/bulk/coordinator.py:54-72 | Handling a genuine delivery is a claim followed by an acknowledgement, and is refused only for a bad lease argument |
| BulkCoordination.HandlingIff | src/ai_retrieval/bulk/coordinator.py:54-72 | Any delivery, genuine or not: exactly when it is unknown, mismatched, refused for its lease arguments or handled; a refusal claims and acknowledges nothing |
| Worker.StagesInOrder | src/ai_retrieval/bulk/worker.py:52-72 | Driven through the next stage, an item that is not finished has exactly the first n stages after n decisions |
| Worker.StaleCommit | src/ai_retrieval/bulk/memory.py:113-192 | The repository write alone: a checkpoint or end that the ideal run decided on earlier changes nothing when brought again, whatever the name; what the dispatch writes after a refusal is FallbackIff, and a decision from two readings is MixedReadingsRun |
| Worker.FallbackIff | src/ai_retrieval/composition/prototype.py:170-187 | What the dispatch writes after a refusal takes effect if and only if it comes under the name that holds the lease then |
| Worker.FallbackMeans | src/ai_retrieval/composition/prototype.py:170-187 | A refused final checkpoint becomes a failed write-back, any other refusal that is caught exhausts the item under the error's name, and a refusal met while handling a failure is raised |
| Worker.RoundIff | src/ai_retrieval/bulk/worker.py:59-72 | A round of the loop idles if and only if the item is taken, processes what the ideal run decides if and only if it writes within its lease, and otherwise raises with no decision made |
| Worker.ResumeFinishes | src/ai_retrieval/bulk/worker.py:52-72 | An unlimited resume after leases lapsed reaches the end of the ideal run within the stages that remain, at most five |
| StageLimits.LimitHolds | src/ai_retrieval/bulk/worker.py:59-72 | Whatever the item, the clock and the lease, a resume with a stage limit gives at most that many results |
| StageLimits.LimitedResume | src/ai_retrieval/bulk/worker.py:52-72 | Of the m results of an unlimited resume, one limited to k gives the first min(k, m), and leaves the item min(k, m) decisions further along the ideal run |
| Workers.ResumeIsSteps | src/ai_retrieval/bulk/worker.py:52-72 | Every run of the loop by an idle worker whose clock does not go back, however limited, is a lawful list of that worker's claims, readings, writes and fallbacks, whatever the other workers are in the middle of |
| Workers.AlwaysOnPath | src/ai_retrieval/composition/prototype.py:170-226 | When no two workers use one owner name: however their claims, readings, renewals, writes, fallbacks and crashes interleave, and however late they come, the item is on the ideal run of the stage dispatch |
| Workers.CompletedStays | src/ai_retrieval/bulk/memory.py:113-192 | Nothing any worker brings late, fallbacks included, changes a completed item, whatever the names and clocks |
| LateWorkers.CrashResumeEquivalence | src/ai_retrieval/bulk/worker.py:52-72 | When no two workers use one owner name: any interleaving of their steps followed by an unlimited resume leaves the stages, outcomes, results and end of one uninterrupted resume, and no later step changes them |
| LateWorkers.SharedNameRun | src/ai_retrieval/composition/prototype.py:182-187 | For any two workers with one owner name and any item the dispatch takes past its third stage: a concrete run from a fresh item in which a late checkpoint is refused and its fallback ends the item as retry-exhausted, off the ideal run |
| LateWorkers.OnPathIff | src/ai_retrieval/composition/prototype.py:170-226 | For such an item: it is on the ideal run after every interleaving of the workers' steps if and only if no two of them use one owner name |
| LateWorkers.CrashResumeIff | src/ai_retrieval/composition/prototype.py:170-226 | For such an item: after every interleaving of the workers' steps every resume ends as one uninterrupted resume does if and only if no two of them use one owner name |
| LateWorkers.EpisodesMakeNoDifference | src/ai_retrieval/bulk/worker.py:52-72 | Any sequence of limited resumes and crashes in the middle of a stage, one after another under any names and with clocks that do not go back, followed by an unlimited resume, ends as one uninterrupted resume does |
| BulkWorkerControl.BulkWorker.RunStages | src/ai_retrieval/bulk/worker.py:59-72 | The loop over the repository returns the results of the specified loop and writes exactly its item, terminating by the stages that remain |
| BulkWorkerControl.BulkWorker.Resume | src/ai_retrieval/bulk/worker.py:52-72 | A non-positive limit or unknown item changes nothing; otherwise the loop, with the results up to an error |
| BulkWorkerControl.BulkWorker.ProcessStage | src/ai_retrieval/composition/prototype.py:170-187 | Writes the decision for the next stage under the claim's owner, or after a refusal the fallbacks of the nested handlers in turn, or raises when none is left |
| Pipeline.ProcessingIsWellBehaved | src/ai_retrieval/composition/prototype.py:170-269 | The stage dispatch checkpoints exactly the next stage or ends the item, with records the constructors accept |
| Pipeline.PipelineTellsStory | src/ai_retrieval/composition/prototype.py:189-269 | The ideal run of the dispatch has the stages, outcomes, results and end of preparing, invoking, parsing, validating and writing straight through, for tasks and for other items, with every stage able to raise, the write-back included |
| Pipeline.DurableRunTellsStory | src/ai_retrieval/composition/prototype.py:189-269 | So does a submitted item after any limited resumes and crashes, one after another, once an unlimited resume has run |
| Pipeline.LateWorkersTellStory | src/ai_retrieval/composition/prototype.py:170-269 | So does it after any interleaving of the steps of late workers, no two of which use one owner name |
| Pipeline.MixedReadingsRun | src/ai_retrieval/composition/prototype.py:189-205 | For any two workers with one owner name and a task whose preparation and model succeed: a concrete run in which an older claim meets a newer stage and the item ends as retry-exhausted for want of a result |
| Pipeline.LateStoryIff | src/ai_retrieval/composition/prototype.py:170-269 | For an item without a task, or a task whose preparation and model succeed: after every interleaving of the workers' steps every resume leaves what doing the work straight through would, if and only if no two workers use one owner name |
| Effects.TrailForm | src/ai_retrieval/bulk/effects.py:38-136 | Wherever a call is cut, at most its one target step has happened, followed by bookkeeping of an applied mutation |
| Effects.NoMutationTwice | src/ai_retrieval/bulk/effects.py:38-112 | Over any run of calls cut anywhere, with roll-backs, ambiguity and errors, no mutation and no digest is applied twice under a key, and a saved effect was applied |
| Effects.AtMostOneMutation | src/ai_retrieval/bulk/effects.py:38-112 | With verification true of the key and digest asked about, and calls that all ask for the same mutation under the key, it is applied at most once over any run of calls cut anywhere, and exactly once when an effect is saved |
| Effects.AtMostOneIff | src/ai_retrieval/bulk/effects.py:38-112 | A key carries at most one mutation in every such run if and only if its transactions are shared or all calls under it ask for the same digest |
| Effects.OnlyWhatWasAsked | src/ai_retrieval/bulk/effects.py:38-112 | Nothing is applied under a key that no call asked for under it |
| Effects.KeyTruthBoundsKey | src/ai_retrieval/bulk/effects.py:62-92 | With shared transactions, or verification true of the whole key, the key carries at most one mutation whatever callers ask for, the saved one if any |
| Effects.TwoMutationsRun | src/ai_retrieval/bulk/effects.py:78-92 | For any two mutations of different digests under a non-shared key, a run from empty tables, honest about each digest, that applies both |
| Effects.RecordedKeysAreClosed | src/ai_retrieval/bulk/effects.py:45-60 | Over every run: once an effect or a reconciliation is on record it stays as it is and no other joins it, and no later call, on any key and cut anywhere, applies anything more under the key |
| Effects.DifferentMutationRefused | src/ai_retrieval/bulk/effects.py:138-160 | Over every run: from the moment a mutation is on record, every later call that asks for another one under the key is refused and changes nothing |
| Effects.RecoveryCompletes | src/ai_retrieval/bulk/effects.py:114-124 | With the lease and a recorded effect, a repeated call reports that effect and completes the item |
| Effects.ResultsAreTrue | src/ai_retrieval/bulk/effects.py:38-136 | Committed and recovered answers leave the effect on record, applied, and the item completed by the returned checkpoint; a reconciliation answer leaves that record; a failed write-back changed nothing |
| EffectAnswers.AnswerIff | src/ai_retrieval/bulk/effects.py:38-112 | With nothing on record and the lease held: the answer is committed, with the item completed, if and only if the target committed; recovered if and only if verification found the effect; reconciliation if and only if a reply was ambiguous, with its reason; a failed write-back if and only if it was rolled back; an error if and only if the target raised or another effect was found |
| EffectAnswers.LostLeaseKeepsEffect | src/ai_retrieval/bulk/effects.py:62-74 | A shared transaction that committed after the lease was lost raises, with its effect on record for a later call |
| EffectAnswers.RecordedAnswers | src/ai_retrieval/bulk/effects.py:45-60 | A key awaiting reconciliation answers with that record for its own mutation and refuses another, changing nothing |
| EffectAnswers.SaveEffectAnswers | src/ai_retrieval/bulk/memory.py:213-227 | An effect is saved once for a key; the same record is returned again, another is a conflict |
| EffectAnswers.SaveReconciliationAnswers | src/ai_retrieval/bulk/memory.py:229-246 | A reconciliation is kept once for a key; the same mutation and reason return it, others conflict |
| EffectRecoveryControl.EffectRecoveryCoordinator.Execute | src/ai_retrieval/bulk/effects.py:38-112 | The call ends in the last state, and with the result, of the specified sub-steps |
| EffectRecoveryControl.EffectRecoveryCoordinator.RestoreCheckpoint | src/ai_retrieval/bulk/effects.py:114-124 | Returns the final checkpoint if there is one, and writes it under the claim's owner otherwise |
| EffectRecoveryControl.EffectRecoveryCoordinator.Reconcile | src/ai_retrieval/bulk/effects.py:126-136 | Saves the reconciliation and reports it |
| TerminalReports.GroupsPartition | src/ai_retrieval/bulk/execution.py:37-59 | The groups of a report hold every item identifier exactly once |
| TerminalReports.ReportSucceeds | src/ai_retrieval/bulk/execution.py:37-59 | Items of one job with their own identifiers always make a report: one well-formed group per state listing exactly its items |
| TerminalReports.ReportSays | src/ai_retrieval/bulk/execution.py:37-59 | A report names its job, cause, time and total, with one group for each state in the declared order, identifiers ascending and exactly those of the items in that state |
| TerminalReports.ReportRefused | src/ai_retrieval/bulk/execution.py:37-48 | No report is built of no items, another job's items, or one item twice, each told apart |
| TerminalReports.ClassificationIff | src/ai_retrieval/bulk/execution.py:19-34 | When each classification is given, in terms of which items succeeded and the cause |
| TerminalReports.CountsMatchIff | src/ai_retrieval/bulk/execution.py:113-119 | In a reachable repository the two counts agree if and only if every item of the job is terminal |
| TerminalReports.ReachableReport | src/ai_retrieval/bulk/execution.py:113-122 | A job of a reachable repository is reported if and only if it has items and all are terminal; no check of the report's constructors can fail |
| DeadLetters.EvidenceInvariant | src/ai_retrieval/bulk/execution.py:89-137 | After any run of completed calls each retry-exhausted item has its dead letter or a recorded persistence failure, and dead letters belong to such items only |
| DeadLetters.EvidenceNeverConflicts | src/ai_retrieval/bulk/memory.py:381-392 | Keeping evidence of a terminal record never meets conflicting evidence |
| DeadLetters.ReplayHeals | src/ai_retrieval/bulk/execution.py:89-111 | A process stopped before its evidence was kept is healed by executing the claim again |
| DeadLetters.ReplayCountsUsage | src/ai_retrieval/bulk/execution.py:105-107 | Executing again returns the same record and counts its usage again |
| DeadLetters.LettersSay | src/ai_retrieval/bulk/execution.py:124-137 | After any run every dead letter says of its item what the terminal record says |
| DeadLetters.FailuresOnce | src/ai_retrieval/bulk/memory.py:201-207 | After any run no persistence failure is recorded twice |
| DeadLetters.FailuresSay | src/ai_retrieval/bulk/execution.py:124-137 | After any run every recorded persistence failure is that of an exhausted item whose persistence was refused, with that error |
| DeadLetters.UsageIsSpent | src/ai_retrieval/bulk/execution.py:105-107 | After any run a job has spent the tokens and the cost of the executed claims whose records were accepted |
| BulkExecutionControl.DeadLetterQueue.Persist | src/ai_retrieval/bulk/memory.py:381-392 | Refuses injected faults and conflicting evidence, returns equal evidence, and otherwise adds it |
| BulkExecutionControl.BulkWorkExecutor.ExecuteClaim | src/ai_retrieval/bulk/execution.py:89-111 | Terminal record first, then usage, then evidence; a handler's exception is a retry-exhausted outcome |
| BulkExecutionControl.BulkWorkExecutor.TerminalReport | src/ai_retrieval/bulk/execution.py:113-122 | Reports over the listing of the repository and changes nothing |
| Budget.ReachableInvariant | src/ai_retrieval/control_plane/budget.py:71-144 | In every reachable ledger reserved usage is the sum of active estimates and actual usage the sum of reconciled actuals per scope, the subtraction never goes negative, and no scope exceeds its limit by more than the overruns of its reconciled reservations, in cost and in tokens |
| Budget.AllScopesOrNone | src/ai_retrieval/control_plane/budget.py:87-107 | A reservation is made if and only if every scope has room, in all scopes of the binding or in none |
| Budget.RefusalIff | src/ai_retrieval/control_plane/budget.py:167-182 | A reservation is refused if and only if some scope is short; the refusal names exactly the short scopes and the dimensions in which one is short |
| Budget.GrantedIff | src/ai_retrieval/control_plane/budget.py:87-107 | In every reachable ledger a reservation is granted if and only if in every bound scope active estimates, settled actuals and this estimate are together within the limit, in cost and in total tokens |
| Budget.RefusalNames | src/ai_retrieval/control_plane/budget.py:167-182 | In every reachable ledger a refusal names, in binding order, exactly the scopes whose sums would exceed their limit, and the dimensions, cost first, in which one would |
| Budget.ReservedRevisions | src/ai_retrieval/control_plane/budget.py:94-107 | The revisions handed out with a reservation are those its scopes have afterwards |
| Budget.ReceiptRevisions | src/ai_retrieval/control_plane/budget.py:109-144 | So are those of a receipt |
| Budget.ReceiptAccounts | src/ai_retrieval/control_plane/budget.py:109-144 | What a receipt releases is exactly the unused part of the estimate in each component |
| Budget.ReserveConservesIff | src/ai_retrieval/control_plane/budget.py:97-104 | A reservation keeps the ledger conserved if and only if there was no room, the identifier is fresh and stated, or the estimate is nothing |
| Budget.BadIdentifierLeaks | src/ai_retrieval/control_plane/budget.py:97-104 | A refused identifier leaves the debit of every bound scope and no reservation |
| Budget.BlankIdentifierLeaks | src/ai_retrieval/control_plane/budget.py:97-104 | In a ledger just opened and bound, hence reachable, a blank identifier for an estimate that fits leaves it reserved with no reservation to release it |
| Budget.ReconcileIdempotent | src/ai_retrieval/control_plane/budget.py:109-144 | Reconciling again with the same usage returns the same receipt and changes nothing; with other usage it conflicts |
| Budget.BindAnswers | src/ai_retrieval/control_plane/budget.py:71-81 | Binding needs scopes, all known, and happens once; again with the same version and scopes it is the same binding |
| BudgetControl.BudgetController.Bind | src/ai_retrieval/control_plane/budget.py:71-81 | Binds deduplicated known scopes once |
| BudgetControl.BudgetController.Reserve | src/ai_retrieval/control_plane/budget.py:87-107 | The loops over scopes compute the specified ledger, decision and exhaustion |
| BudgetControl.BudgetController.Reconcile | src/ai_retrieval/control_plane/budget.py:109-144 | The loop over scopes computes the specified ledger and receipt |
| Capacity.RunRefines | src/ai_retrieval/model_routing/capacity.py:84-125 | Over whole runs at non-decreasing times the pruning pool gives the answers of a reference that keeps every admission ever made |
| Capacity.AcquireRefines | src/ai_retrieval/model_routing/capacity.py:84-104 | An acquisition admits the first candidate the reference finds admissible, or none |
| Capacity.PruneScope | src/ai_retrieval/model_routing/capacity.py:120-125 | Pruning leaves exactly the admissions of the last minute and is not seen by the reference |
| Capacity.FitsIsAdmissible | src/ai_retrieval/model_routing/capacity.py:127-137 | The fit on pruned deques decides what the full history restricted to the last minute decides |
| Capacity.RefusalInvisible | src/ai_retrieval/model_routing/capacity.py:84-104 | A refused acquisition changes no later decision |
| CapacityBounds.RollingWindowBound | src/ai_retrieval/model_routing/capacity.py:84-137 | In every 60-second window of every run the admissions and admitted tokens of a limited scope stay within its limits, whatever was released |
| CapacityBounds.DequeIsRecentHistory | src/ai_retrieval/model_routing/capacity.py:120-137 | The deque agrees with the full admission history on the last minute |
| CapacityBounds.ActiveCountsLeases | src/ai_retrieval/model_routing/capacity.py:84-114 | A scope's active count is the number of outstanding leases containing it, never negative and within its concurrency limit |
| CapacityBounds.AllScopesOrNone | src/ai_retrieval/model_routing/capacity.py:84-104 | An acquisition takes all configured scopes of the candidate it returns, or nothing |
| CapacityCalls.LeaseScopes | src/ai_retrieval/model_routing/capacity.py:69-104 | A lease holds exactly the limited scopes among the system, the request or job of the operation by its path, its tenant, and the provider and model of the candidate |
| CapacityCalls.CallWindowBound | src/ai_retrieval/model_routing/capacity.py:84-137 | In every 60-second window of every run the calls admitted for a limited scope, and their tokens, stay within its limits, counted from the calls and answers alone |
| CapacityCalls.ConcurrencyBound | src/ai_retrieval/model_routing/capacity.py:84-114 | At any time of any run no more operations of a scope are admitted and not released than its concurrency limit |
| CapacityCalls.AdmissionIff | src/ai_retrieval/model_routing/capacity.py:84-137 | After any run an operation is admitted if and only if it holds no capacity and, for some candidate, one more keeps every scope they count on within its limits; it is admitted for the first such candidate |
| CapacityCalls.ReleaseIff | src/ai_retrieval/model_routing/capacity.py:106-114 | After any run a lease is taken back if and only if it is the one its operation was admitted with and still holds |
| CapacityControl.HierarchicalCapacity.Prune | src/ai_retrieval/model_routing/capacity.py:120-125 | The popping loop expires each scope's deque |
| CapacityControl.HierarchicalCapacity.FitsNow | src/ai_retrieval/model_routing/capacity.py:127-137 | Says whether every scope has room |
| CapacityControl.HierarchicalCapacity.AcquireFirst | src/ai_retrieval/model_routing/capacity.py:84-104 | The loop over candidates computes the specified pool and admission |
| CapacityControl.HierarchicalCapacity.Release | src/ai_retrieval/model_routing/capacity.py:106-114 | Gives back exactly a known lease |
| Router.EligibleIff | src/ai_retrieval/model_routing/router.py:138-170 | A candidate is eligible if and only if every gate lets it through |
| Router.ReasonsIff | src/ai_retrieval/model_routing/router.py:138-170 | Only the first failing of the policy is reported, and otherwise exactly the gates that are closed |
| Router.EconomicalAdmission | src/ai_retrieval/model_routing/router.py:84-113 | The admitted candidate is least by cost, priority and model id among all that are eligible and fit every scope now |
| Router.CheapestAdmitted | src/ai_retrieval/model_routing/router.py:84-113 | No candidate that could be admitted costs less than the admitted one, at its cost none has a higher priority, and then none an earlier model id |
| Router.DenialIff | src/ai_retrieval/model_routing/router.py:84-113 | Capacity is the failure if and only if some candidate is eligible and either the operation holds a lease or none that is eligible fits |
| Router.DeadlineFailureIff | src/ai_retrieval/model_routing/router.py:96-103 | With no eligible candidate the failure is the deadline if and only if it alone keeps every candidate out |
| Scheduling.RoundRobinOrder | src/ai_retrieval/model_routing/router.py:172-200 | The order keeps each tenant's own order and puts every k-th operation before any (k+1)-th |
| Scheduling.OrderedIsPermutation | src/ai_retrieval/model_routing/router.py:172-200 | Every scheduling order tries exactly the queued operations |
| Scheduling.InteractiveFirstOrder | src/ai_retrieval/model_routing/router.py:172-200 | Interactive operations come first, in arrival order within each kind |
| Scheduling.FifoOrder | src/ai_retrieval/model_routing/router.py:172-175 | First-in-first-out tries operations in the order they were queued |
| Scheduling.ScheduleFromFirst | src/ai_retrieval/model_routing/router.py:126-133 | The first admissible operation is admitted, however many refusals pruned the pool before it |
| Scheduling.NoTenantOvertaken | src/ai_retrieval/model_routing/router.py:126-133 | The tenant served last is served again only if no other tenant's oldest operation can be admitted |
| Fairness.FirstRoundIsCyclic | src/ai_retrieval/model_routing/router.py:186-200 | The first round holds every tenant's oldest operation once, in the cyclic order of their arrivals that starts after the tenant served last |
| Waiting.CallIsTurn | src/ai_retrieval/model_routing/router.py:126-133 | A scheduling call that serves is a turn of the waiting model, with what the full capacity history admits |
| Waiting.OvertakingCostsAge | src/ai_retrieval/model_routing/router.py:126-200 | While an admissible oldest operation waits, between any two services of another tenant an operation older than it is served |
| Overtaking.OvertakenTwiceIff | src/ai_retrieval/model_routing/router.py:126-200 | From a queue on, whatever is enqueued, admitted or was served last: no other tenant is served twice while an admissible oldest operation waits, if and only if no other tenant has exactly one older operation |
| Overtaking.OvertakenInTurn | src/ai_retrieval/model_routing/router.py:186-200 | For any three tenants a queue and three calls, all operations admissible and all three tenants queued throughout, in which one is served twice before another |
| ModelRouterControl.ModelRouter.Enqueue | src/ai_retrieval/model_routing/router.py:115-124 | Appends with the next sequence number, unless the operation is queued |
| ModelRouterControl.ModelRouter.OrderedQueue | src/ai_retrieval/model_routing/router.py:172-200 | The popping loops, which terminate, compute the specified order |
| ModelRouterControl.ModelRouter.ScheduleNext | src/ai_retrieval/model_routing/router.py:126-133 | Admits as specified, takes exactly the served operation off the queue and remembers its tenant |
| ModelRouterControl.ModelRouter.Admit | src/ai_retrieval/model_routing/router.py:84-113 | Computes the specified pool and admission |
| Invocation.ResourcesBalance | src/ai_retrieval/composition/prototype.py:298-334 | On every exit the capacity leases and active reservations are those at entry, and each scope of the execution has paid exactly the charges of the reserved packs |
| Invocation.ChargesFollowPacks | src/ai_retrieval/composition/prototype.py:298-334 | The charged packs are a prefix, each charged the reported usage or else its own estimate; outputs come from the answered packs in order |
| Invocation.TurnIff | src/ai_retrieval/composition/prototype.py:301-334 | A pack is answered, at the usage reported, if and only if it is admitted, its estimate is reserved and the service answers; how each other end is reported and what it charges |
| Invocation.StopsAtFailure | src/ai_retrieval/composition/prototype.py:298-334 | Outputs are those of the first packs' services in order, and there is no failure if and only if every pack was answered |
| Invocation.AdmitThenRelease | src/ai_retrieval/model_routing/capacity.py:84-114 | Releasing what an admission took restores leases and active counts |
| Invocation.SettledAtOnce | src/ai_retrieval/control_plane/budget.py:87-144 | A reservation reconciled at once leaves only its charge |
| PackInvocationControl.PackInvoker.InvokePack | src/ai_retrieval/composition/prototype.py:301-334 | One turn, with its finally block, over the budget controller and the router |
| PackInvocationControl.PackInvoker.InvokeAll | src/ai_retrieval/composition/prototype.py:298-334 | The loop computes the specified resources, outputs and failure |
| Packing.GreedyPartitions | src/ai_retrieval/tasks/packing.py:136-157 | On success the packs concatenate to the rows, every pack is non-empty and fits, and carries its own candidate |
| Packing.GreedyIsOptimal | src/ai_retrieval/tasks/packing.py:136-157 | No partition into contiguous fitting packs has fewer packs, whenever fitting is inherited by slices |
| Packing.GreedyFailsIff | src/ai_retrieval/tasks/packing.py:136-157 | Whenever fitting is inherited by slices: packing fails if and only if some row cannot stand alone, with the error of the first such row, unless a negative estimate is reported, which an estimator that keeps its contract never gives |
| Packing.MonotoneIsSliceClosed | src/ai_retrieval/tasks/packing.py:159-183 | With any monotone estimator, slices of rows that fit together fit |
| Packing.PrototypePacking | src/ai_retrieval/composition/prototype.py:150-156 | With the prototype's estimator packing succeeds if and only if every row fits alone, and then optimally |
| Packing.PreparedIsAccepted | src/ai_retrieval/tasks/models.py:139-200 | A prepared task passes every check of the constructors it is built with |
| Packing.PreparedWithinLimits | src/ai_retrieval/tasks/packing.py:136-183 | Every pack of a prepared task is within the limits of items, tokens and bytes, and would exceed one with the row that follows it |
| Packing.WorkMatchesPacks | src/ai_retrieval/tasks/packing.py:76-134 | Each pack's model work names its task, version and rows, refers to its stored payload, and carries its estimates |
| TaskPackerControl.DeterministicTaskPacker.BuildCandidates | src/ai_retrieval/tasks/packing.py:136-157 | The loop over rows computes the greedy packs |
| TaskPackerControl.DeterministicTaskPacker.Prepare | src/ai_retrieval/tasks/packing.py:76-134 | Computes the prepared task, and stores payloads only after all packs are built |
| Validation.AcceptedIff | src/ai_retrieval/validation/validator.py:75-131 | Output is accepted if and only if its records are clean and carry exactly the input identifiers, once each |
| Validation.CorrespondsUnderPermutation | src/ai_retrieval/validation/validator.py:95-131 | Whether output corresponds does not depend on the order of its records |
| ValidationReasons.ReportedIff | src/ai_retrieval/validation/validator.py:75-131 | A rule or reason is reported, once, if and only if some record or the output as a whole breaks it, and output is accepted if and only if none is |
| ValidationReasons.DigitsReadBack | src/ai_retrieval/validation/validator.py:124-127 | The text under which a numeric identifier is compared is its decimal digits, and reads back as the number |
| ValidatorControl.ValidateOutput | src/ai_retrieval/validation/validator.py:75-131 | The accumulating loops compute the specified rules and reasons, each once, in the order met |
| TaskValidation.PackAcceptedExactly | src/ai_retrieval/tasks/validation.py:31-51 | Whatever the rules: one pack's output is accepted if and only if it corresponds, suits the task, and its `id` fields are the row identifiers as text; when only the last fails the call raises, and rejected output releases nothing |
| TaskValidation.AcceptedIffText | src/ai_retrieval/tasks/validation.py:31-51 | With the identifier field called `id`, corresponding output that suits the task is accepted if and only if its identifiers are text |
| TaskValidation.PackAcceptedIff | src/ai_retrieval/tasks/validation.py:31-51 | With text identifiers, one pack's output is accepted if and only if it corresponds and suits the task |
| TaskRules.RulesDecide | src/ai_retrieval/tasks/validation.py:91-115 | Accepted output has only labels of the invocation, or summaries within their words and characters; output that corresponds and can be read is accepted if and only if none breaks these |
| TaskRules.ReasonsOf | src/ai_retrieval/tasks/validation.py:91-115 | The label, word and character rules are each reported if and only if some record breaks them |
| TaskValidation.AcceptedInRowOrder | src/ai_retrieval/tasks/validation.py:118-122 | Accepted records are the output records, one for each row, in row order |
| TaskValidation.OrderInsensitive | src/ai_retrieval/tasks/validation.py:31-51 | However the model orders its records, the same output is accepted with the same records |
| TaskValidation.OrderSucceedsIff | src/ai_retrieval/tasks/validation.py:118-122 | As many records as distinct row identifiers can be put in row order if and only if their `id` fields are those identifiers, as text |
| TaskValidation.NumericIdentifierCrashes | src/ai_retrieval/tasks/validation.py:118-122 | A concrete record that passes correspondence and the task's rules, with a number for its identifier, on which validation raises |
| TaskValidation.OtherIdentifierFieldCrashes | src/ai_retrieval/tasks/validation.py:118-122 | Another, which carries its identifier under the field the rules name, where that is not `id` |
| TaskValidation.AllPacksAcceptedIff | src/ai_retrieval/tasks/validation.py:55-83 | The outputs of all packs are accepted if and only if each pack's output is |
| TaskValidation.OneFailureWithholdsAll | src/ai_retrieval/tasks/validation.py:55-83 | One pack that is not accepted withholds the records of all |
| TaskRules.CombinedReports | src/ai_retrieval/tasks/validation.py:146-182 | The combined outcome names, once, exactly the failed rules and reasons of the packs, and has records only if all passed |
| TaskRules.RejectionSays | src/ai_retrieval/tasks/validation.py:31-51 | Output that corresponds but breaks a task rule is rejected with exactly the rules and reasons it breaks |
| TaskRules.WrongIndexesRefused | src/ai_retrieval/tasks/validation.py:55-66 | Outputs that do not bring every pack index exactly once are refused |
| TaskRules.ForeignOutputRaises | src/ai_retrieval/tasks/validation.py:66-70 | An output whose pack is not the prepared one at its place is refused |
| TaskValidation.AcceptedIdsAreRowIds | src/ai_retrieval/tasks/validation.py:55-83 | Accepted output carries exactly the rows' identifiers in row order |
| TaskValidation.AnyArrivalSameRecords | src/ai_retrieval/tasks/validation.py:55-83 | With the packs' outputs permuted, and the records inside them, the result is accepted if and only if the original is, with the same records |
| TaskValidation.RoundTrip | src/ai_retrieval/composition/prototype.py:360-372 | Flattening an accepted result, splitting it by pack sizes and validating again accepts it and returns the same records |
| TaskValidatorControl.ValidateAll | src/ai_retrieval/tasks/validation.py:55-83 | The loop over packs computes the specified result |
| TaskValidatorControl.SplitFlat | src/ai_retrieval/composition/prototype.py:360-370 | The running-start loop computes the split by pack sizes |
| TaskValidatorControl.ValidateStored | src/ai_retrieval/composition/prototype.py:360-372 | Validating a stored flat result is validating its split by pack sizes |
| Ordering.OrderIsPreorder | src/ai_retrieval/relational/normalization.py:92-105 | The comparison of rows is a total preorder for every list of terms, directions and null placements |
| Ordering.RowsTransitive | src/ai_retrieval/relational/normalization.py:92-105 | The comparison is transitive across nulls, directions and ties |
| Ordering.ResultIsSortedPermutation | src/ai_retrieval/relational/normalization.py:24-44 | The result is a permutation of the normalized rows, in order, with ties as delivered |
| OrderMeaning.ResultOrderMeans | src/ai_retrieval/relational/normalization.py:92-105 | Of two rows the earlier has, at the first term where they differ, the smaller value when ascending, the larger when descending, and a null where nulls are placed |
| OrderMeaning.NormalizesIff | src/ai_retrieval/relational/normalization.py:52-82 | A value normalizes if and only if a cell of the column's type stands for it, and to that cell |
| OrderMeaning.ResultOkIff | src/ai_retrieval/relational/normalization.py:24-90 | A result normalizes if and only if column names differ, every row is as wide as the columns with values that normalize, and every ordering term names a column |
| Ordering.IndependentIffDistinguished | src/ai_retrieval/relational/normalization.py:24-44 | Every adapter order of the same rows gives the same result if and only if the terms tell distinct rows apart |

## Left out

- Threads, `RLock` and asyncio scheduling, the interactive coordinator and its cancellation: every locked method is one step.
- JSON, UTF-8, base64 and the workings of SHA-256, and with them the structured-output parser: stored JSON is the value it
  encodes, and the digest is an arbitrary function.
- Time zones, floating point, and Unicode white space (text is blank when it is ASCII white space).
- Blankness checks of identifiers in the constructors of submissions, items and notifications: these values are taken as
  accepted; outcome, failure code, owner and drawn identifiers are checked where the repository and ledgers check them.
- Parsing of text into decimals, dates and times during row normalization: raw values arrive with their kind.
- The digests and the metadata sink of the validators, and the digests in combined outcomes.
- Telemetry, audit, redaction, security gateways, registries, configuration, CLI, admission routing and query planning.
- The retry controller, the partial aggregator, and the write-back approval comparison, which is a gate before recovery.
- `run_bulk` and its job classification, which has no clean whole-job claim.
- Aliasing of the ledger's mutable balance objects, which no other object holds: balances are values in a map.
- Two `execute` calls for one key running at the same time: runs are sequences of calls, each cut anywhere.
- Decimals are exact: `Decimal.normalize()` rounds to the context precision, 28 digits by default, so longer values can
  compare equal there.
- LateWorkers.CrashResumeEquivalence: the stage dispatch is a function of what the worker read, so services that answer
  differently on a repeated stage are not covered.
- LateWorkers.EpisodesMakeNoDifference: with a clock that goes back between a refused write and its fallback the fallback can
  be accepted, so clocks that go back are left out.
- Pipeline.DurableRunTellsStory: the stages' services are functions of stored objects, including the model's answers and
  the write-back, whose own recovery is the subject of Effects.
- Workers.AlwaysOnPath: what a late worker reports is not modelled, only what it leaves behind.
- BulkExecutionControl.BulkWorkExecutor.ExecuteClaim: the handler's result arrives as the reference of the stored object.
