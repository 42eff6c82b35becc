# Verified models of the publication, recovery and paid-request state machines

Four state machines of the data service decide what is published, what is retried and what is
paid for. This project models them in Dafny and proves what they keep over whole runs.

* **Freshness convergence engine** (`Convergence*.dfy`, `RecoveryPolicy.dfy`): a leased work queue
  of recovery chains with numbered attempts, deadlines, retry budgets and paid totals; the policy
  that decides the next action; the worker that turns parser results into a decision; the planner
  that turns terminal events into chains. Each `BEGIN IMMEDIATE` block is one step on the tables.
  `ConvergenceTables` specifies the steps, `ConvergenceStore` is the store that carries them out;
  `ConvergenceEffects` says field by field what they write, and
  `ConvergenceLeases`, `ConvergenceWork` and `ConvergencePaging` are about what happens between the
  steps of a worker and of a planner.
* **Dataset publication store** (`Publication*.dfy`): content-addressed records behind a
  checksummed manifest. Every durable write and unlink is a step, so a crash can fall between any
  two; operations are plans of such steps. `PublicationPlans` proves crash safety and rollback,
  `PublicationStatus` and `PublicationRuns` cover generations, reconciliation and what readers are
  told, `PublicationOrdering` the order of publications. `PublicationStore` is the store, and its
  journal of writes is proved to be the plan.
* **Bright Data ledger** (`Usage*.dfy`): budget, outstanding reservations, stale expiry, month
  rollover and circuit breaker in one record, with the reserve/finish bracket around one request.
* **Firecrawl key rotation** (`Key*.dfy`, `CreditCalendar.dfy`): an allocator over keys with credit
  limits, its retry loop, and the billing-period calendar.

Specifications are functions on immutable values; the classes hold the fields the program updates,
and their methods are proved to compute those functions. Runs are folds of events over them.

## Findings

Where the code does less than one might expect, the project keeps the code's behaviour and proves
the exact condition.

* The paid gate of `finish_attempt` looks at requests, not at cost: cost without requests is
  accepted on a chain that may not spend (`CostWithoutRequestsPassesTheGate`).
* `run_once` reports the moment of its claim as `finished_at`, so a worker that outlived its lease
  still settles its attempt if nobody has claimed after its end (`OutlivedLeaseStillFinishes`,
  `WorkerFinishAppliesExactlyIfUndisturbed`), and backoff counts from the claim.
* A source added to a claimed chain can be missing from the results that make the chain fresh
  (`LateSourceCanBeMissing`, `ResultsCoverTheChainExactlyIfNothingWasAdded`).
* A failed refresh that was superseded, with no status of the winner to preserve, ends as
  `stale=false` (`OvertakenFailureLooksFresh`, `StaleAfterReconcilingExactlyWhen`).
* A caller's `validated_previous` replaces the comparison with what is published
  (`GivenBaselineBypassesTheHeadExactlyWhen`); the one caller that passes it, `app/main.py:182-289`,
  stops before that where only the record of the head is damaged, and makes a comparison of its own
  where the head can be read.
* Attempt numbering starts over when the control file is lost before anything was published or
  recorded (`LostGenerationsStartOver`, `NextGenerationIsNewExactlyWhen`).
* `record_firecrawl_credits` can store an exhausted key as active (`RecordMayActivateExhausted`).
* Events that arrive behind the planner cursor are never planned (`LateArrivalIsMissed`,
  `ArrivalDecides`), nor are those that arrive behind the end of a batch that a run has read and
  goes on to finish (`RaceIsDecidedByTheRun`).
* A publication whose head cannot be read is compared with the freshest recoverable version instead.
  So with the manifest intact and the record of its head damaged, a snapshot older than the head is
  accepted and replaces it (`DamagedHeadIsForgotten`, `DamagedHeadIsReplaced`, and for every
  unreadable publication `UnreadablePublicationIsForgottenExactlyWhen`).

## Model

| member | source | states |
|---|---|---|
| `RecoveryPolicy.DecisionsUseTheirDelays` | app/convergence_policy.py:70-165 | A decision always carries the delay list of its action, so the list a chain stores is the one its budget is counted against. |
| `RecoveryPolicy.DecisionsFollowPolicy` | app/convergence_policy.py:98-165 | Every decision is a policy decision: only a transport retry may spend, and `complete` is decided exactly for a fresh outcome. |
| `RecoveryPolicy.TransportFailureSpends` | app/convergence_policy.py:148-157 | Which outcomes and reasons lead to the one paid action. |
| `RecoveryPolicy.DelaysFitBudget` | app/convergence_policy.py:64-80 | The number of delays of an action is its retry budget, and no delay list is out of order. |
| `RecoveryPolicy.ProbesAndPausesAreDecidedExactlyWhen` | app/convergence_policy.py:109-126 | Completion, scheduler retries, upstream probes and provider pauses: each is decided if and only if its outcome and reason say so. |
| `RecoveryPolicy.RetriesAreDecidedExactlyWhen` | app/convergence_policy.py:127-147 | The same for candidate, publication and local retries. |
| `RecoveryPolicy.LastResortsAreDecidedExactlyWhen` | app/convergence_policy.py:148-165 | The same for transport retries, quarantine and diagnosis; a timed-out outcome is a transport retry without a transport reason too. |
| `RecoveryPolicy.ActionsHaveTheirClassAndDelays` | app/convergence_policy.py:70-165 | The reason class of each action, and its delays in minutes. |
| `ConvergenceTables.SweepIsPointwise` | app/convergence_store.py:550-592 | Reaping expired leases and then exhausting overdue chains acts on each chain alone. |
| `ConvergenceInvariant.StepKeeps` | app/convergence_store.py:127-942 | Create, claim, finish, reconcile, telemetry and cursor writes keep: lease fields set exactly while running; attempt numbers exactly 1..attempt_index; only the newest attempt may be running, an orphan of a deadline-exhausted chain included; a running chain owns its attempt by number, worker and action. |
| `ConvergenceInvariant.RunKeeps` | app/convergence_store.py:127-942 | The same over every interleaving by any workers. |
| `ConvergenceInvariant.ReachableTablesKeepInv` | app/convergence_store.py:127-942 | It holds in every reachable state, which is what the store methods start from. |
| `ConvergenceInvariant.InsertNeverCollides` | app/convergence_store.py:644-689 | Of a chain the query picks: the attempt number a claim inserts is new, and the chain meets the WHERE clause of the update, so the insert never collides and the `rowcount != 1` rollback is unreachable. |
| `ConvergenceInvariant.CheckedCreatesAreAllowed` | app/convergence_store.py:139-160 | What passes the checks of `create_or_get_chain` is a creation the invariant can live with. |
| `ConvergenceFencing.AtMostOneAttemptRuns` | app/convergence_store.py:550-592 | In every reachable state a chain has at most one running attempt. |
| `ConvergenceFencing.FinishAppliesExactlyUnderLease` | app/convergence_store.py:843-861 | A finish is applied if and only if its attempt holds the unexpired lease under the same worker and stays within what it may spend and complete; a refused finish changes nothing. |
| `ConvergenceFencing.LostForever` | app/convergence_store.py:550-592 | An attempt that lost its lease never gets it back in any later run. |
| `ConvergenceFencing.LostAttemptsAreFenced` | app/convergence_store.py:843-857 | Hence its worker can never change the chain again. |
| `ConvergenceFencing.ExpiredLeaseIsLost` | app/convergence_store.py:550-582 | Any claim after the end of a lease takes the lease away and records the attempt as expired. |
| `ConvergenceFencing.SettledForever` | app/convergence_store.py:848-853 | A settled attempt row is never written again. |
| `ConvergenceFencing.ReplayChangesNothing` | app/convergence_store.py:848-853 | Replaying `finish_attempt`, at once or after any other steps, changes nothing. |
| `ConvergenceFencing.RunsConservePaidUsage` | app/convergence_store.py:896-942 | In every reachable state the paid requests and cost of a chain equal the sums over its attempts. |
| `ConvergenceBudget.RowsForAreMade` | app/convergence_store.py:863-873 | The rows counted for an action are exactly the attempts of the chain made for it. |
| `ConvergenceBudget.RetryBudgetHolds` | app/convergence_store.py:863-894 | With decisions from the policy, the attempts made for an action never exceed its number of delays plus its lease-expired attempts, in any run. |
| `ConvergenceBudget.TotalAttemptsAreBounded` | app/convergence_store.py:863-894 | However outcomes switch actions, a chain makes at most 22 attempts beyond those whose lease expired. |
| `ConvergenceBudget.OnlyTransportRetriesPay` | app/convergence_store.py:858-859 | In every run, only attempts whose action is `retry_transport` carry paid requests. |
| `ConvergenceBudget.CostWithoutRequestsPassesTheGate` | app/convergence_store.py:858-859 | The gate looks at requests only: an accepted finish leaves cost on an attempt that was no transport retry if and only if it reports cost without requests on a chain that may not spend. |
| `ConvergenceBudget.FreeAttemptCanCarryCost` | app/convergence_store.py:858-859 | A finish that does so exists for every leased attempt of a free action. |
| `ConvergenceQueue.PeekAgreesWithTake` | app/convergence_store.py:754-788 | In every reachable state, for the same time and filters, `has_due` is true exactly when `claim_due` returns a claim, although the latter first reaps leases and exhausts deadlines. |
| `ConvergenceQueue.SweepMakesDueWhatLooksDue` | app/convergence_store.py:706-788 | A chain looks due before the sweep exactly when it can be claimed after it. |
| `ConvergenceQueue.SomethingIsFirst` | app/convergence_store.py:618-639 | Among claimable chains one comes first in (next_attempt_at, created_at, chain_id) order, so a claim never misses. |
| `ConvergenceQueue.FirstIsUnique` | app/convergence_store.py:629-630 | The order leaves no choice: two first chains are the same. |
| `ConvergenceQueue.ClaimsAreDueBeforeDeadline` | app/convergence_store.py:583-639 | A claimed chain was due and not yet past its deadline at the moment of the claim. |
| `ConvergenceQueue.ClaimLeavesNothingOverdue` | app/convergence_store.py:583-592 | After each committed claim, no waiting, upstream-pending or running chain is past its deadline. |
| `ConvergenceQueue.RetriesFallBeforeDeadline` | app/convergence_store.py:884-894 | A retry that a finish schedules falls strictly before the deadline. |
| `ConvergenceQueue.StepMovesChains` | app/convergence_store.py:239-250 | In one step a chain keeps its creation time, deadline and sources, `fresh` is frozen, and the parked states can only become `fresh`. |
| `ConvergenceQueue.ParkedChainsOnlyBecomeFresh` | app/convergence_store.py:239-250 | Over every run: `fresh` is never left and not a field of the chain changes; exhausted, paused, quarantined and diagnosis-required chains stay or become `fresh`. |
| `ConvergenceQueue.FreshHasAWitness` | app/convergence_store.py:239-265 | A chain becomes `fresh` only by an applied, successful finish that decided to complete, or by a reconciliation that found a fresh primary newer than the chain for every source of it. |
| `ConvergenceEffects.CreatedChainIs` | app/convergence_store.py:160-209 | A chain is created once, in the state of its action, with its first attempt one delay after the observation; later calls leave it alone and add sources. |
| `ConvergenceEffects.CreateRefusalsAreFaults` | app/convergence_store.py:139-159 | Every refusal of a creation names a fault that the request has. |
| `ConvergenceEffects.SweptChainIs` | app/convergence_store.py:550-592 | A chain past its deadline is exhausted, one whose lease is over waits and is due at once, every other one is untouched. |
| `ConvergenceEffects.SweptAttemptIs` | app/convergence_store.py:563-572 | Exactly the running attempts of chains whose lease is over fail, as expired. |
| `ConvergenceEffects.ClaimableMeans` | app/convergence_store.py:618-639 | A chain is claimable if and only if it is open, due, in time, not leased, of an allowed action and with all its sources eligible. |
| `ConvergenceEffects.LooksDueMeans` | app/convergence_store.py:758-788 | A chain looks due if and only if it is in time, passes both filters, and is open and due or running past its lease. |
| `ConvergenceEffects.FirstMeans` | app/convergence_store.py:629-630 | The chain picked is the earliest due, then the oldest, then the first by id. |
| `ConvergenceEffects.LeasedRowsAre` | app/convergence_store.py:644-689 | A lease adds one running attempt for the action of the chain and changes the lease fields of that chain only. |
| `ConvergenceEffects.ClaimedIsAllowed` | app/convergence_store.py:593-617 | A claimed chain is of a given action, and every source of it is in the given eligible set. |
| `ConvergenceEffects.UnclaimedAreFiltered` | app/convergence_store.py:618-642 | If nothing was claimed, every open chain that is due and in time is kept back by its action or by one of its sources. |
| `ConvergenceEffects.RefusalsOfFinish` | app/convergence_store.py:843-861 | Each refusal of a finish, as an if and only if on usage, ownership and lease. |
| `ConvergenceEffects.FinishedChainIs` | app/convergence_store.py:874-894 | A retry is scheduled after exactly the delay whose place is the number of attempts made for its action, if there is one and it ends before the deadline; else the chain is exhausted; the other actions lead to their states. |
| `ConvergenceEffects.FinishedRowsAre` | app/convergence_store.py:896-942 | The totals grow by the usage reported, the lease is given up, the attempt holds what was reported, and no other row moves. |
| `ConvergenceEffects.ReconcileClosesExactly` | app/convergence_store.py:239-266 | A chain is closed if and only if it is in one of the six unresolved states and each source has a primary outcome `fresh_published` that finished after the chain was created; every other chain is untouched. |
| `ConvergenceEffects.AdvanceKeepsTheLater` | app/convergence_store.py:313-331 | The cursor becomes the later of the two, by time and then by attempt. |
| `ConvergenceStore.Store.constructor` | app/convergence_store.py:110-125 | A new store is empty. |
| `ConvergenceStore.Store.CreateOrGetChain` | app/convergence_store.py:127-219 | Refuses by the checks, in order, or inserts the chain if new and adds the missing sources; reachable tables stay reachable. |
| `ConvergenceStore.Store.ReapExpiredLeases` | app/convergence_store.py:550-581 | The loop over expired leases fails their running attempts and sends their chains back to waiting, and touches no other chain. |
| `ConvergenceStore.Store.TakeLease` | app/convergence_store.py:644-689 | Leases one claimable chain under a new attempt. |
| `ConvergenceStore.Store.ClaimDue` | app/convergence_store.py:517-704 | One transaction: sweep, filter, pick the first due chain in the order of the query, lease it; with an empty filter or nothing due only the sweep remains. What was claimed passes both filters, and what is left due is kept back by one. |
| `ConvergenceStore.Store.HasDue` | app/convergence_store.py:706-791 | True if and only if some chain in time and passing both filters is open and due, or running past its lease; changes nothing. |
| `ConvergenceStore.Store.FinishAttempt` | app/convergence_store.py:793-952 | Checks in the order of the source, then settles the attempt and schedules the chain after the delay for its next attempt, or ends it; a refusal changes nothing. |
| `ConvergenceStore.Store.ReconcileFreshPrimaryOutcomes` | app/convergence_store.py:231-274 | Closes exactly the unresolved chains each source of which has a `fresh_published` primary newer than the chain, and counts them. |
| `ConvergenceStore.Store.AdvancePlannerCursor` | app/convergence_store.py:293-337 | The cursor only moves forward in (finished_at, attempt_id) order. |
| `ConvergenceStore.Store.RecordPrimary` | app/reliability_telemetry.py:738-782 | Inserts a primary outcome unless its attempt id is there; ids stay unique. |
| `ConvergenceWorker.IdsMatch` | app/convergence_worker.py:112-120 | True exactly when the results name every expected source once and nothing else. |
| `ConvergenceWorker.ClassifyExecution` | app/convergence_worker.py:108-149 | All fresh, else pending, else the first result of the highest priority; a dependency failure unless the results cover the snapshot exactly. |
| `ConvergenceWorker.CoveringMeans` | app/convergence_worker.py:112-120 | Results cover the snapshot if and only if each expected source is named by exactly one of them and nothing else is named. |
| `ConvergenceWorker.ClassificationIs` | app/convergence_worker.py:114-142 | What is failed, fresh and pending among classifications. |
| `ConvergenceWorker.WorstOutcomeDecides` | app/convergence_worker.py:143-149 | Timed out outranks failed, that served last-known-good, that provisional, that skipped; an unknown outcome counts as failed. |
| `ConvergenceWorker.ReasonIsOfTheFirstWorst` | app/convergence_worker.py:143-149 | The reason is that of the first result of the deciding outcome; a provisional one has none. |
| `ConvergenceWorker.WorkerReportIs` | app/convergence_worker.py:184-210 | A worker reports its own attempt, the moment of its claim, and the run and usage of its executor; a failed executor is a local failure without usage. |
| `ConvergenceWorker.WorkerCompletesExactlyWhenAllFresh` | app/convergence_worker.py:184-210 | A worker asks to complete if and only if its results contain each source of the claim snapshot exactly once, all fresh; and then it reports success. |
| `ConvergenceWorker.WorkersNeverCompleteAFailure` | app/convergence_worker.py:194-210 | `run_once` never triggers the "failed execution cannot complete" error, whatever state the tables are in. |
| `ConvergenceWorker.RunOnce` | app/convergence_worker.py:152-220 | Claim, classify, decide, finish: the tables end as claim followed by finish, the finish is applied or refused only for the paid usage it reports, and no claim means nothing looked due. |
| `ConvergenceWorker.Settle` | app/convergence_worker.py:184-210 | The half of `run_once` after the claim, on tables that others may have changed: it sends a finish that fits its lease and results, and the tables end as that finish leaves them. |
| `ConvergenceWorker.LeaseIsFresh` | app/convergence_worker.py:199-206 | Directly after the claim its finish can only be refused for the paid usage it reports. |
| `ConvergenceLeases.LeaseLastsExactlyIfUndisturbed` | app/convergence_store.py:550-592 | Over any run a lease lasts exactly until a claim is committed at or after its end or the deadline, or its attempt is finished; the chain is untouched till then. |
| `ConvergenceLeases.WorkerFinishAppliesExactlyIfUndisturbed` | app/convergence_worker.py:199-210 | After a claim and any run of other transactions, a worker's finish is never refused as late; it is applied if and only if it reports admissible usage and no claim was committed at or after the end of the lease or the deadline and no finish of the attempt was applied. |
| `ConvergenceLeases.OutlivedLeaseStillFinishes` | app/convergence_worker.py:205 | Any lease can be outlived: past its end, with nobody having claimed, the finish still settles the attempt, and would be refused if it reported the time. |
| `ConvergenceLeases.SomeLeaseIsHandedOut` | app/convergence_store.py:517-704 | A concrete reachable lease: a timed-out source, claimed for 30 seconds when its first delay is over. |
| `ConvergenceWork.LeasesHaveTheirClaims` | app/convergence_store.py:690-704 | In a run of workers every lease was handed out by a claim of that run. |
| `ConvergenceWork.LeasedSourcesStay` | app/convergence_store.py:201-209 | The sources of a lease stay among the sources of its chain. |
| `ConvergenceWork.FreshMeansEverySourceOfTheClaimIsFresh` | app/convergence_worker.py:108-210 | In a run of workers a chain turns fresh only by results that cover, all fresh and each once, exactly the sources the chain had at the claim of that attempt, which it still has; or by the reconciler with a fresh primary for every source. |
| `ConvergenceWork.ResultsCoverTheChainExactlyIfNothingWasAdded` | app/convergence_worker.py:108-210 | The results that make a chain fresh cover the sources it has by then if and only if none was added since the claim. |
| `ConvergenceWork.LateSourceCanBeMissing` | app/convergence_store.py:201-209 | A source added after the claim stays out of the results that make the chain fresh. |
| `ConvergencePlanner.PlannedCreatesPass` | app/convergence_planner.py:167-203 | Every chain planned for a terminal event passes the checks of the store. |
| `ConvergencePlanner.SlotCreatesPass` | app/convergence_planner.py:207-224 | So does every chain planned for a missing slot. |
| `ConvergencePlanner.PlannedCreateIs` | app/convergence_planner.py:176-203 | A failed event asks for the chain of its cohort and window, or of its own attempt without one, with its own source, the decision for it, and a deadline after the hours of that action. |
| `ConvergencePlanner.SlotCreateIs` | app/convergence_planner.py:207-224 | A missed slot asks for the chain of its cohort and occurrence under the decision of the scheduler. |
| `ConvergencePlanner.EventsShareAChainExactlyWhen` | app/convergence_planner.py:191-197 | Two failed events share a chain if and only if they share cohort and window, and have a window or are the same attempt. |
| `ConvergencePlanner.BatchIs` | app/convergence_planner.py:66-88 | At most 500 events after the cursor and not in the future, in order, and none before one taken left out. |
| `ConvergencePlanner.FirstRunLooksBackADay` | app/convergence_planner.py:59-63 | Without a cursor a run starts one day back. |
| `ConvergencePlanner.TerminalEvents` | app/convergence_planner.py:50-95 | The batch is the first rows after the cursor in (finished_at, attempt_id) order, up to the limit, none skipped. |
| `ConvergencePlanner.PlanRows` | app/convergence_planner.py:167-205 | The loop over events creates what the planning function says, in order. |
| `ConvergencePlanner.PlanOnce` | app/convergence_planner.py:143-236 | One run: the batch planned, then the missing slots, then the reconciliation, then the cursor moved to the last row of the batch. |
| `ConvergencePaging.PagingStepKeeps` | app/convergence_planner.py:161-236 | Arrivals at any time, other transactions, reading a batch, each single create, the move of the cursor and crashes in between keep the accounts of which rows are handled, in time, or racing the run under way. |
| `ConvergencePaging.EveryEventIsPlannedOnce` | app/convergence_planner.py:161-236 | From any stored cursor or none, over every such run: behind the cursor exactly the rows that arrived in time are handled, in (finished_at, attempt_id) order and hence each once, and each has its chain and source in the tables. |
| `ConvergencePaging.InOrderArrivalsAreAllHandled` | app/convergence_planner.py:161-236 | If events arrive in cursor order, every logged row between the start and the cursor is handled, whatever crashes. |
| `ConvergencePaging.HandledRowsStayPlanned` | app/convergence_planner.py:194-205 | A handled row has its chain and its source in the tables in every later state. |
| `ConvergencePaging.ArrivalDecides` | app/convergence_planner.py:72-78 | A row that arrives while it does not race a run and later lies behind the cursor was handled if and only if it arrived ahead of the cursor. |
| `ConvergencePaging.RaceIsDecidedByTheRun` | app/convergence_planner.py:161-236 | A row that arrives below the end of the batch a run has read is missed if and only if that run moves the cursor; if it dies, the row is handled later. |
| `ConvergencePaging.LateRowIsNeverHandled` | app/convergence_planner.py:72-78 | What arrives behind the cursor is handled in no later state. |
| `ConvergencePaging.LateArrivalIsMissed` | app/convergence_planner.py:72-78 | A concrete late arrival: a refresh that finished at 9, recorded after the run up to 10. |
| `ConvergencePaging.PlansMakeProgress` | app/convergence_planner.py:50-95 | While an event is due ahead of the cursor, a run reads a batch, with all of what is due if it is short. |
| `ConvergencePaging.CommitMovesTheCursor` | app/convergence_planner.py:229-236 | A run that ends moves the cursor strictly forward, to its last row. |
| `ConvergencePaging.PlannerRunIsPlanOnce` | app/convergence_planner.py:161-236 | The events of an undisturbed run leave the tables as the method `PlanOnce` does. |
| `ConvergencePlanner.PlannedForever` | app/convergence_store.py:161-209 | A planned chain and its sources stay, whatever happens later. |
| `ConvergencePlanner.ReplayedBatchChangesNothing` | app/convergence_planner.py:161-236 | The same batch replayed after a crash before the cursor write, and after anything else in between, changes neither the chains nor their sources. |
| `ConvergencePlanner.GrownReplayOnlyAddsNewRows` | app/convergence_planner.py:161-236 | A planner that died after any of its creates leaves them planned; the next run, with a grown batch and slots, does exactly what its not yet planned creates do and touches no chain that is there. |
| `UsageLedger.SettingsAreClamped` | app/brightdata_state.py:390-391 | The threshold is at least one failure and the cooldown at least a minute. |
| `UsageLedger.LoadedIs` | app/brightdata_state.py:211-223 | A later month starts its counts over and keeps reservations, failures and cooldown. |
| `UsageLedger.ExpiredIs` | app/brightdata_state.py:226-250 | Every reservation of an hour or more is billed and counted as failed, no other is touched, and the circuit trips at the threshold. |
| `UsageLedger.RefusalsOfAdmission` | app/brightdata_state.py:402-420 | Each refusal as an if and only if, in the order circuit, budget, capacity. |
| `UsageLedger.ReserveRefusesOutright` | app/brightdata_state.py:386-387 | Without a budget nothing is reserved, and a record of a later month is not touched. |
| `UsageLedger.FinishIs` | app/brightdata_state.py:459-477 | What a finish does to every field, on success and on failure. |
| `UsageLedger.GrantedExactlyWhen` | app/brightdata_state.py:402-424 | A reservation is granted if and only if the budget has room and either the breaker leaves capacity or the cooldown is over and no probe is out; a refused admission leaves a sound record alone. |
| `UsageLedger.ExpiredStaysSound` | app/brightdata_state.py:226-250 | Mass expiry charges every stale reservation and keeps the record sound. |
| `UsageLedger.ExpiryTripsEmpty` | app/brightdata_state.py:245-250 | An expiry that trips the circuit leaves nothing outstanding. |
| `UsageLedger.ReserveStaysSound` | app/brightdata_state.py:379-442 | Rollover, expiry and admission together keep the record sound. |
| `UsageLedger.FinishStaysSound` | app/brightdata_state.py:459-477 | A finish keeps it sound; one that trips the circuit leaves nothing outstanding. |
| `UsageRuns.RunKeeps` | app/brightdata_state.py:159-479 | Over every run of reservations and finishes, across months: soundness, settlement bookkeeping and the counts of the period. |
| `UsageRuns.BudgetAndSettlement` | app/brightdata_state.py:393-477 | billed + outstanding never exceeds the limit; every granted reservation is in exactly one of outstanding, finished and expired; attempts = settled + outstanding in each period; billed = baseline + settled - known unbilled. |
| `UsageRuns.BreakerBoundsOutstanding` | app/brightdata_state.py:393-430 | Below the threshold failures + outstanding stays within it; at or above it at most one probe is out; the circuit time is set exactly at or above the threshold. |
| `UsageRuns.DeadBranches` | app/brightdata_state.py:405-413 | After any run, whoever asks next, the admission decides as it would without the branch that clears a cooldown and the one that sets a missing one. |
| `UsageRuns.FailuresAreConsecutive` | app/brightdata_state.py:239-244 | After any run the failures are those since the last accepted success, failed finishes and stale charges counted one by one, and the successes are those of the month. |
| `UsageRuns.TrippedExactlyByAStreak` | app/brightdata_state.py:467-476 | The circuit is tripped if and only if the failures in a row reach the threshold. |
| `UsageRuns.SuccessClearsTheBreaker` | app/brightdata_state.py:467-470 | An accepted success leaves no failure and no cooldown, whatever came before. |
| `UsageRuns.SettledOnce` | app/brightdata_state.py:239-243 | A settlement is final and settles an id that was outstanding. |
| `UsageRuns.TripLeavesNothingOutstanding` | app/brightdata_state.py:473-476 | Whatever sets or moves the cooldown leaves no reservation outstanding. |
| `UsageRuns.NothingGrantedBeforeCooldown` | app/brightdata_state.py:402-404 | After a trip nothing is granted before the cooldown ends, whatever is asked, finished or rolled over. |
| `UsageRuns.OursUntilFinishedOrCharged` | app/brightdata_state.py:235-243 | While others run, a granted reservation stays outstanding for its own finish or is charged by an expiry; nothing else settles it. |
| `UsageRuns.OwnFinishIsAcceptedExactlyWhen` | app/brightdata_state.py:459-462 | In an interleaved run the finish of an outstanding request is accepted if and only if the ledger was not, and nobody has rolled it, past the month of the finish, and nobody reserved an hour or more after the request did. |
| `UsageFile.UsageState.InitializeUsageState` | app/brightdata_state.py:334-369 | Creates the record once, from a baseline within the limit. |
| `UsageFile.UsageState.RollOver` | app/brightdata_state.py:211-222 | A new month keeps the outstanding reservations, the failures and the cooldown, and starts the counts over. |
| `UsageFile.UsageState.ExpireStaleReservations` | app/brightdata_state.py:226-250 | The loop charges exactly the stale reservations, then trips the circuit if the threshold is reached. |
| `UsageFile.UsageState.AdmitRequest` | app/brightdata_state.py:402-430 | Admission on the swept record. |
| `UsageFile.UsageState.ReserveRequest` | app/brightdata_state.py:379-442 | Load with rollover, expire, admit; refusals are written back too. |
| `UsageFile.UsageState.FinishRequest` | app/brightdata_state.py:445-479 | Settles an outstanding reservation without rollover, or refuses an unknown one and changes nothing. |
| `UsageFile.SnapshotAddsUp` | app/brightdata_state.py:286-297 | On a sound record billed, reserved and remaining add up to the limit: the clamp never acts. |
| `UsageFile.Bracket` | app/brightdata_backend.py:287-362 | Which finish runs and with which billing on each way through the handlers: unknown stays unknown once the request has started. |
| `UsageFile.BillingIsWhatWasSaid` | app/brightdata_backend.py:329-349 | The billing of each way out: unbilled before the start, else what the error or the response headers said. |
| `UsageFile.SettledCost` | app/brightdata_backend.py:329-370 | The one finish leaves nothing outstanding and costs a unit unless the request is known to be unbilled. |
| `UsageFile.ScrapeUrlSync` | app/brightdata_backend.py:282-370 | On every ordinary path a granted reservation is finished exactly once, with the outcome of that path; only a clock that stepped back into an earlier month makes the ledger refuse it. |
| `CreditCalendar.DateLiesInItsPeriod` | app/firecrawl_keys.py:50-74 | For every date and reset day 1..28, current(d) <= d < next(d), and both are real dates. |
| `CreditCalendar.PeriodsAreAdjacent` | app/firecrawl_keys.py:50-74 | current(next(d)) = next(d) and current(current(d)) = current(d). |
| `CreditCalendar.PeriodsPartitionTheCalendar` | app/firecrawl_keys.py:50-74 | Two dates share a period if and only if one lies in [current, next) of the other. |
| `CreditCalendar.PeriodChangesOnResetDayOnly` | app/firecrawl_keys.py:50-74 | From one day to the next, leap days and year ends included, the period changes exactly on reset days, and then to the day itself. |
| `CreditCalendar.PeriodLastsUntilNextStart` | app/firecrawl_keys.py:50-74 | Counting days from a period start, every day before the next reset day belongs to the period, and that reset day is next(start). |
| `CreditCalendar.LeapYearsAre` | app/firecrawl_keys.py:62-74 | The leap years of the calendar the periods are cut from: every fourth, but for centuries that 400 does not divide. |
| `CreditCalendar.MonthsAre` | app/firecrawl_keys.py:62-74 | The length of every month. |
| `CreditCalendar.YearsAre` | app/firecrawl_keys.py:62-74 | A year adds up to 365 days, a leap year to 366. |
| `KeyLedger.MergeIsCoherent` | app/firecrawl_keys.py:157-191 | Whatever was stored, after a merge the entries are those of the configured keys, a key at its limit is exhausted, the active key can be used, and there is none exactly when no key can. |
| `KeyLedger.LeasesAreUsable` | app/firecrawl_keys.py:275-320 | A lease is always for a key that is not exhausted and has credits left; acquisition fails if and only if no key is usable. |
| `KeyLedger.AcquireTrustsTheActiveKey` | app/firecrawl_keys.py:282-292 | On merged usage the active key is what is leased: the rotation branch of the acquisition never runs. |
| `KeyLedger.FirstAvailableIsFirst` | app/firecrawl_keys.py:194-199 | The key chosen is the first in configured order that is not exhausted and has credits left. |
| `KeyLedger.MergedUsageIs` | app/firecrawl_keys.py:157-189 | Within a period a merge keeps the stored credits and exhaustion of every configured key and a usable active key; a new period starts from zero with the first key. |
| `KeyLedger.MergeFallsBackOnTheFirst` | app/firecrawl_keys.py:183-187 | Without a usable active key the first available one becomes active. |
| `KeyLedger.RecordedUsageIs` | app/firecrawl_keys.py:332-348 | A record adds the used credits to its key and to no other, exhausts it at its limit, and then activates the first available key. |
| `KeyLedger.MarkedUsageIs` | app/firecrawl_keys.py:373-379 | A mark exhausts its key, leaves all credits, and activates the first available key. |
| `KeyLedger.RecordMayActivateExhausted` | app/firecrawl_keys.py:341-348 | Recording credits stores an unusable active key if and only if the pool was exhausted and the recorded key stays below its limit; the next merge repairs it. |
| `KeyLedger.RecordedExhaustedKeyIsActive` | app/firecrawl_keys.py:347-348 | A concrete ledger on which that happens. |
| `KeyRotation.KeyFile.MergeState` | app/firecrawl_keys.py:157-191 | The merge, entry by entry, of the stored usage with the configured keys. |
| `KeyRotation.KeyFile.AcquireKey` | app/firecrawl_keys.py:275-320 | Merges, leases the key the ledger function names and stores the result. |
| `KeyRotation.KeyFile.RecordCredits` | app/firecrawl_keys.py:323-363 | Adds credits to a known key and rotates at the limit. |
| `KeyRotation.KeyFile.MarkExhausted` | app/firecrawl_keys.py:366-388 | Exhausts a known key and activates the first available one. |
| `KeyRotation.TryOnce` | app/firecrawl_backend.py:718-743 | One round: no key exactly if none is usable; a credit error removes exactly that key from the usable ones; the stored usage moves by the round that `SequentialOverdraftIsBounded` speaks of. |
| `KeyRotation.AttemptsAreEnough` | app/firecrawl_backend.py:717 | The loop makes at most eight turns, or one per key if there are more. |
| `KeyRotation.RetryLoop` | app/firecrawl_backend.py:717-759 | The loop: usable keys left are the initial ones minus those tried; its bound suffices. |
| `KeyRotation.ScrapeWithRotation` | app/firecrawl_backend.py:706-759 | Within a period and undisturbed, no key is repeated after its credit error, only usable keys are tried, and the loop gives up if and only if every usable key gives a credit error, after trying them all. |
| `KeyRotation.OverdraftIsBounded` | app/firecrawl_keys.py:157-388 | Within a period, credits of a key stay below its limit plus the cost of the leases that may be out at once; a lease ends in credits, a credit error or any other error. |
| `KeyRotation.SequentialOverdraftIsBounded` | app/firecrawl_backend.py:718-743 | In sequential use, whatever the responses, credits of a key stay below its limit plus the cost of one request. |
| `KeyRotation.CreditsAddUp` | app/firecrawl_keys.py:332-335 | Over any run within a period, by any processes, the credits of a key are the sum of what was recorded for it. |
| `KeyRotation.SpentKeyIsNotLeased` | app/firecrawl_keys.py:275-320 | A key whose recorded credits reach its limit is not leased again in the period. |
| `KeyRotation.MarkedKeyIsNeverLeasedAgain` | app/firecrawl_keys.py:157-388 | Over any interleaving of acquisitions and settlements by any processes within a period, a key that was marked exhausted is not leased again. |
| `PublicationFiles.ManifestRoundTrip` | app/dataset_publication_store.py:502-546 | A manifest written for a non-empty list without repetition is read back: head first, distinct, bounded by the retention, checksum intact. |
| `PublicationFiles.ManifestIsValidExactlyWhen` | app/dataset_publication_store.py:508-546 | A manifest is valid if and only if its list is not empty, starts with its current version, repeats nothing, is not longer than 20 and its checksum fits. |
| `PublicationFiles.LegacyIsValidExactlyWhen` | app/dataset_publication_store.py:493-501 | A legacy record is valid if and only if its digest is right; nothing else can be read. |
| `PublicationFiles.HeadMeans` | app/dataset_publication_store.py:548-557 | What is served: a legacy record, or the first version of a valid manifest if its record verifies. |
| `PublicationPlans.DiscoverableMeans` | app/dataset_publication_store.py:775-788 | A record is recovered if and only if its digest is right, both times can be read and it is not from more than five minutes ahead. |
| `PublicationPlans.SanitizedKeepsOrder` | app/dataset_publication_store.py:951-957 | Versions that are still valid stay in the order listed. |
| `PublicationPlans.PromotionIsCrashSafe` | app/dataset_publication_store.py:837-962 | Wherever a promotion of a sound disk is cut between durable writes and unlinks, the published file validates, every version it lists has a hash-verified file, and the head is the old or the new version. |
| `PublicationPlans.RollbackIsCrashSafe` | app/dataset_publication_store.py:964-1002 | A rollback cut before its commit changed nothing; cut after it, from any disk, it is sound with the target at its head. |
| `PublicationPlans.PromotionRepairs` | app/dataset_publication_store.py:922-962 | A promotion that reaches its commit makes any disk sound, however damaged it was. |
| `PublicationPlans.RunsAreCrashSafe` | app/dataset_publication_store.py:837-1002 | After any sequence of crashes and retries of both operations the disk is sound and serves its first head or a target of one of them. |
| `PublicationPlans.RetryReachesTheSameManifest` | app/dataset_publication_store.py:922-962 | Crash anywhere and run the promotion again: the manifest lists exactly what one clean run would list; after the commit from any disk, before it from a sound publication. |
| `PublicationPlans.SoundPromotionHistory` | app/dataset_publication_store.py:933-961 | On a sound publication, a legacy one included, a promotion lists the candidate followed by what the publication named, in order. |
| `PublicationPlans.PromotionMakesTheOldHeadTheDefaultTarget` | app/dataset_publication_store.py:734-747 | After promoting another version the old head is second and is the default rollback target. |
| `PublicationPlans.RollbackUndoesPromotion` | app/dataset_publication_store.py:988-1001 | Promote, then roll back by default: the old head is served again, the promoted version is retained second, the rest keeps its order. |
| `PublicationStatus.NextGenerationIs` | app/dataset_publication_store.py:350-371 | The next generation follows the highest known one, and the clock too where the control file is lost and something suggests earlier attempts. |
| `PublicationStatus.NextGenerationIsNewExactlyWhen` | app/dataset_publication_store.py:337-382 | A new generation passes all issued ones if and only if the control file or the status holds the highest, or the loss leaves a trace and the clock has passed it. |
| `PublicationStatus.LostGenerationsStartOver` | app/dataset_publication_store.py:356-371 | The case in which numbering starts over: control file gone, no status, nothing published. |
| `PublicationStatus.ReconciledStatusFacts` | app/dataset_publication_store.py:1070-1154 | Whatever it overwrites, a reconciled status names the head in both version fields and its generation does not fall. |
| `PublicationStatus.SupersededMeans` | app/dataset_publication_store.py:1070-1078 | An attempt is superseded if and only if it expected another version, or is older than the status or the latest attempt. |
| `PublicationStatus.StatusOfAnAttemptInForce` | app/dataset_publication_store.py:1112-1205 | Every field of the status of an attempt in force. |
| `PublicationStatus.StatusOfAPreservedWinner` | app/dataset_publication_store.py:1079-1140 | What an overtaken attempt keeps of a status that names the head, and what it fixes. |
| `PublicationStatus.StatusOfAnOvertakenAttempt` | app/dataset_publication_store.py:1140-1205 | The status it writes where none names the head. |
| `PublicationStatus.ReconcileWrites` | app/dataset_publication_store.py:1085-1223 | Which of cache and status change, by which write succeeds. |
| `PublicationStatus.ColdFailureIsRecordedExactlyWhen` | app/dataset_publication_store.py:1274-1325 | Where nothing can be served, a failure is recorded if and only if no newer attempt is known; its status names no version. |
| `PublicationStatus.WarmFailureIsReconciled` | app/dataset_publication_store.py:1258-1273 | Where a head is served, a failure is reconciled for it whatever version was expected, and marked overtaken if and only if a newer attempt is known. |
| `PublicationStatus.RecordingFacts` | app/dataset_publication_store.py:1225-1325 | A cold failure is recorded only by an attempt that is not behind, and leaves no version in the status. |
| `PublicationStatus.AnswerIsStored` | app/dataset_publication_store.py:1225-1325 | With the write succeeding, the status returned is the one stored, but for an overtaken attempt that found neither a head nor a status. |
| `PublicationStatus.ReadersGetTheHead` | app/dataset_publication_store.py:1341-1384 | Within the age limit and only then, readers get the head's dataset, whatever cache and status say. |
| `PublicationStatus.ReasonsOfAnswers` | app/dataset_publication_store.py:1350-1411 | Each reason of an unavailable or stale answer, in the order of the checks. |
| `PublicationStatus.FreshExactlyWhenAllAgree` | app/dataset_publication_store.py:1385-1411 | stale=false if and only if the cache equals the head, no status version disagrees and no failure is recorded. |
| `PublicationStatus.StaleAfterReconcilingExactlyWhen` | app/dataset_publication_store.py:1070-1223 | After a reconciliation with both writes succeeding, readers see stale if and only if the attempt failed and was not superseded, or it lost to a preserved status that reports a failure. |
| `PublicationStatus.UnsyncedCacheIsReported` | app/dataset_publication_store.py:1197-1205 | A cache write that failed is reported as stale unless a winner's status is preserved. |
| `PublicationStatus.OvertakenFailureLooksFresh` | app/dataset_publication_store.py:1140-1154 | A failed refresh that was superseded, with no status to preserve, is answered with stale=false: a concrete instance. |
| `PublicationRuns.RunKeeps` | app/dataset_publication_store.py:337-1325 | Over any run with crashes and losses of the control file, in which attempts begin as `GenerationsIncreaseExactlyIfBeginsAreSafe` requires: issued generations strictly increase, promotions come in non-decreasing generation order, the status never runs ahead, the disk stays sound. |
| `PublicationRuns.GenerationsIncreaseExactlyIfBeginsAreSafe` | app/dataset_publication_store.py:337-382 | Over any run, whatever the clock and the losses, the issued generations increase if and only if every attempt began with the control file intact, the status at the highest, or a trace of the loss and the clock past it. |
| `PublicationRuns.OvertakenAttemptNeverPromotes` | app/dataset_publication_store.py:872-897 | Once a newer attempt has begun, an older one changes nothing by promoting, in any later state. |
| `PublicationRuns.StatusGenerationNeverDecreases` | app/dataset_publication_store.py:1129-1154 | Over any run at all the generation in the status never decreases. |
| `PublicationRuns.UnsupersededExactlyIfLatest` | app/dataset_publication_store.py:1070-1080 | In a reachable state an attempt that expects the head is not superseded if and only if it is the latest one issued, or, with the control file lost, not behind the status. |
| `PublicationRuns.TheLastEffectIsServed` | app/dataset_publication_store.py:837-1002 | Over any run the version served is the target of the last operation that took effect: a promotion by the then latest attempt, or a rollback, that reached its commit. |
| `PublicationRuns.ReadersAreNeverMisled` | app/dataset_publication_store.py:1341-1411 | Over any run the answer is the target of the last promotion or rollback that took effect, or what was published before, and it is called fresh only with that dataset in the cache and no other version claimed. |
| `PublicationRuns.PromotionIsStaleUntilReconciled` | app/dataset_publication_store.py:1385-1393 | A committed promotion is served at once; before a reconciliation it is called fresh if and only if the cache held that dataset already and the status agreed. |
| `PublicationRuns.LatestAttemptReachesFresh` | app/dataset_publication_store.py:1070-1223 | The latest attempt, not failed, reaches stale=false by reconciling with both writes succeeding. |
| `PublicationRuns.LatestFailureIsReported` | app/dataset_publication_store.py:1174-1183 | The latest attempt, failed, makes readers see stale=true. |
| `PublicationStore.Retention` | app/dataset_publication_store.py:156-168 | 5 without a setting, else the setting clamped to 2 to 20. |
| `PublicationStore.ObjectionsMean` | app/dataset_publication_store.py:870-931 | Each refusal of a promotion as an if and only if, in the order validation, attempt, candidate, existing record. |
| `PublicationStore.RollbackObjectionsMean` | app/dataset_publication_store.py:964-987 | Each refusal of a rollback as an if and only if, and when it is carried out. |
| `PublicationStore.TargetRefusalsMean` | app/dataset_publication_store.py:717-751 | Each refusal of a requested rollback target. |
| `PublicationStore.TargetsCanBeRolledBackTo` | app/dataset_publication_store.py:717-751 | Every rollback target answered is listed, not the head, and verified. |
| `PublicationStore.DefaultTargetIsMissingExactlyWhen` | app/dataset_publication_store.py:739-751 | There is no default target if and only if nothing below the head is valid. |
| `PublicationStore.DatasetPublicationStore.BeginPublicationAttempt` | app/dataset_publication_store.py:337-382 | Allocates the next generation durably. |
| `PublicationStore.DatasetPublicationStore.StageCandidate` | app/dataset_publication_store.py:408-428 | Stages a dataset under its digest. |
| `PublicationStore.DatasetPublicationStore.DiscoverValidVersions` | app/dataset_publication_store.py:775-790 | Lists every recoverable version once, in the order of (fetched_at, published_at, version), descending. |
| `PublicationStore.DatasetPublicationStore.Sanitize` | app/dataset_publication_store.py:951-957 | Keeps the versions whose records are still valid, in order. |
| `PublicationStore.DatasetPublicationStore.CommitManifest` | app/dataset_publication_store.py:837-859 | Carries out the commit plan: manifest first, then unlinks of what is not retained; nothing unretained stays but files that resist removal. |
| `PublicationStore.DatasetPublicationStore.ExistingVersions` | app/dataset_publication_store.py:933-950 | The versions a promotion starts from: manifest, saved legacy version or discovery. |
| `PublicationStore.DatasetPublicationStore.Publish` | app/dataset_publication_store.py:905-962 | Carries out the promotion plan write by write, so that its states are the crash points of the plan. |
| `PublicationStore.DatasetPublicationStore.PromoteCandidate` | app/dataset_publication_store.py:861-962 | With its own or a given generation: refuses for the first objection in the order of the source and changes nothing published, or carries out a promotion plan. |
| `PublicationStore.DatasetPublicationStore.RollbackTargetVersion` | app/dataset_publication_store.py:717-751 | The requested version or the first valid one below the head, or the reason there is none. |
| `PublicationStore.DatasetPublicationStore.RollbackToVersion` | app/dataset_publication_store.py:964-1002 | Refuses and changes nothing, or carries out a rollback plan. |
| `PublicationStore.DatasetPublicationStore.ReconcilePayload` | app/dataset_publication_store.py:1070-1205 | The payload built field by field is the reconciled status. |
| `PublicationStore.DatasetPublicationStore.ReconcileCurrentPublication` | app/dataset_publication_store.py:1004-1223 | Cache and status end as the reconciliation function says; no head, no change. |
| `PublicationStore.DatasetPublicationStore.RecordStatusWithoutPublication` | app/dataset_publication_store.py:1225-1325 | Reconciles if there is a head, else compares generations and sets; returns the status the functions name, or raises. |
| `PublicationStore.DatasetPublicationStore.JudgeCandidate` | app/dataset_publication_store.py:1544-1633 | The baseline and verdict of a candidate, as the ordering function says. |
| `PublicationStore.DatasetPublicationStore.ValidateAndPublish` | app/dataset_publication_store.py:1521-1696 | Stages, judges and promotes: published if and only if the verdict is a pass and the attempt is the latest, and no existing record of the version is damaged; otherwise nothing published changes. |
| `PublicationOrdering.PreviousIs` | app/dataset_publication_store.py:1544-1585 | What a candidate is compared with: the caller's baseline, else what is served, else the freshest recoverable. |
| `PublicationOrdering.VerdictsMean` | app/dataset_publication_store.py:1587-1655 | Obsolete, regressed and passing, each as an if and only if. |
| `PublicationOrdering.PassIsNewerThanTheHead` | app/dataset_publication_store.py:1587-1613 | With the publication readable and no baseline of the caller, what passes is strictly newer than the head. |
| `PublicationOrdering.PassIsNewerThanTheRecoverable` | app/dataset_publication_store.py:1576-1604 | With it unreadable, what passes is newer than every recoverable version, or is the freshest of them put back by an exact repair. |
| `PublicationOrdering.GivenBaselineBypassesTheHeadExactlyWhen` | app/dataset_publication_store.py:1566-1575 | A caller's own baseline lifts the comparison with what is published: whatever was served last, readable still or not, another candidate no newer is accepted if and only if the content checks pass and the baseline leaves an admissible time for it. |
| `PublicationOrdering.UnreadablePublicationIsForgottenExactlyWhen` | app/dataset_publication_store.py:1550-1604 | With the publication unreadable, its file lost or damaged or the record of its head damaged, another candidate no newer than what was served last is accepted if and only if the content checks pass and what is recoverable leaves room for it, or, with the file itself gone, is put back. |
| `PublicationOrdering.RecoverableIsNotForgotten` | app/dataset_publication_store.py:1576-1604 | While what was served last is recoverable, nothing strictly older is accepted. |
| `PublicationOrdering.DamagedHeadIsForgotten` | app/dataset_publication_store.py:1550-1585 | A concrete publication: manifest intact, head record damaged, and a snapshot older than the head is accepted. |
| `PublicationOrdering.DamagedHeadIsReplaced` | app/dataset_publication_store.py:922-962 | Promoting that snapshot replaces the newer head. |
| `PublicationOrdering.CommitMovesForward` | app/dataset_publication_store.py:1587-1669 | A commit is strictly newer than the last one, or an exact repair of an unreadable manifest. |
| `PublicationOrdering.IntactHeadsStrictlyIncrease` | app/dataset_publication_store.py:1587-1669 | Between rollbacks, with the manifest and the head record intact, over any run with crashes anywhere and other records lost or damaged, a changed head is strictly newer. |
| `PublicationOrdering.ServedNeverGetsOlder` | app/dataset_publication_store.py:1587-1669 | The same runs, from any start, a legacy publication included, with the published file lost or damaged too while its version is recoverable: what is served never gets older. |
| `PublicationOrdering.ManifestsCanAlwaysBeLost` | app/dataset_publication_store.py:775-790 | From a manifest and records with publication times, the last served version stays recoverable over any run. |

## Left out

- SQL text, WAL mode, schema migration, file locks, fsync and JSON encoding: a transaction or an atomic replace is one step.
- SHA-256 ids and digests are constructors, hence injective; UUIDs are parameters. Time is an integer number of seconds.
- Content validation (gates, structure, aliases, regression against the baseline) enters the ordering as given verdicts.
- Quarantine files, diagnostics, public summaries, telemetry rows of planner runs, fingerprints and last-used timestamps.
- Identifier and label normalisation (strip, lower case, length limits) and the checks that reject malformed timestamps.
- Cohorts are given as a map from cohort to sources; the registry they are built from is not part of this model.
- The query for missing schedule slots: the slots are a parameter of a planner run. Planned origins are either a window or an attempt, so a window named like `attempt:...` is not modelled.
- Attempt ids, start times and detail texts in the status; state texts are taken as non-empty. A cache write that fails leaves the old cache or the new one.
- Exceptions that are no `Exception` (interrupts) around a paid request, and operating-system errors in the middle of a store operation, other than unlinks that fail and crashes of the publication store.
- Damage to version records in the middle of promotions and rollbacks: crash safety starts from a sound disk (a committed promotion or rollback repairs any).
- ServedNeverGetsOlder: its runs lose or damage any record but that of the version served last; what is accepted after that is `UnreadablePublicationIsForgottenExactlyWhen`.
- RetryReachesTheSameManifest: where nothing was published and the first try did not commit, the later try may list records that only its later time admits.
- Configuration of the paid ledger: limit, threshold and cooldown are constants of a run.
- HTTP clients, scraping, parsing, alerts, logging, `app/fetcher.py`, `app/ai_review.py`, `app/api_tokens.py`, `app/completeness.py`, `app/db.py`: network orchestration or single-step members.
- Planner runs that overlap: one planner is at work at a time.
- RunOnce: runs no other transaction between its claim and its finish; `Settle` and the lemmas of `ConvergenceLeases` allow any.
- The ids of chains and versions are ordered by a given function, as the order of digest texts is not known.
- OverdraftIsBounded: bounds one period; requests that overlap a period change are not counted.
