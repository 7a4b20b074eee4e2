# JUMI verification

JUMI runs the nodes of a DAG as Kubernetes Jobs and survives crashes of its own process. This
project models the parts of JUMI where that is hard and proves what they guarantee:

- **The durable attempt protocol** (`Spec`, `AttemptId`, `Reconcile`, `AttemptState`, `Protocol*`,
  `NodeRunner`). One node, its attempt records, its run and its runner as a step machine: every
  event is at most one registry transaction, and crashes, restarts, overlapping Cancel calls, store
  failures and arbitrary answers of backend and handoff service can fall between any two of them.
  A schedule is any sequence of events; a state is `Reachable` if some admissible schedule leads
  there from what CreateRun leaves behind. `NodeRunner` is the runner in its own imperative form and
  is proved to move only along the steps of the machine, with other goroutines acting in between, so
  that everything proved of reachable states holds of it; a crash merely cuts it short in one of them.
  Beside the safety results over all schedules, `ProtocolResumes`, `ProtocolStarts`, `ProtocolOutcomes`
  and `ProtocolCancel` say outright which records each decision, refusal, answer and Cancel call leaves
  behind.
- **Two registries, one meaning** (`Store`, `StoreLaws`, `MemoryRegistry`, `SqliteTables`,
  `SqliteRegistry`, `RegistryEquivalence`). Both registries are proved against the same functions on values, the
  SQLite one with any of its SQL statements failing.
- **Smaller cores**: spec validation with DFS cycle detection (`Validate`), Job ownership by marker
  (`JobLabels`, `JobClient`), node contracts through environment keys (`EnvSegment`, `EnvKeys`,
  `ContractEnv`, `ContractRoundTrip`, `ContractFaithful`, `StringOrder`), placement (`Placement`), and the status of a
  finished run (`RunFold`). `Text` and `Squeeze` hold the string helpers they share.

`dafny verify dfyconfig.toml` checks everything.

## Hypotheses

- `Config.handleDurable`: the handle StartNode returned marshals to non-empty JSON and
  PersistBackendHandle stores it before the Started write at pkg/executor/executor.go:901, which
  replaces the whole attempt record and so drops its fence. The result of persistHandle is ignored
  at pkg/executor/executor.go:896, so this is a hypothesis about the adapter and the store. It is
  necessary as well as sufficient: `AtMostOnceExactlyWhenHandlesAreDurable`.
- `Config.storeReliable`: registry transactions do not fail. Assumed only where a row says so.
- One executor works on a run, at most one runner is alive per node, and a runner is started at most
  once per run of the graph. The graph's Start succeeds once the graph is ready. For
  `UnresolvedRecoveryStutters`, the graph is given up only after its runners have returned.
- A registry transaction is atomic, and one that fails changes nothing. JSON is lossless.
- Timestamps are kept as the fact whether they are set. A read and the external call it feeds count
  as one step where nothing durable happens in between.

## Where the code differs from its comments or its purpose

- Attempt ids are numbered by RealizationAttemptCount (pkg/registry/memory.go:240), not by
  AttemptCount as the comment at pkg/registry/registry.go:34 says. The model follows the code.
- The comment at pkg/executor/executor.go:893-895 expects a handle that was not persisted to be
  recovered by identity. After the Started write neither fence nor handle is on record and the node
  resumes before the fence: `ProtocolNecessity.SubmitsTwice` is that run.
- existingAttemptMarkerMatches falls back to the label, which adopts Jobs of other attempts for
  markers that are themselves plain label values (`OwnershipAgreesIffNotALabel`). The spawner's
  64-character markers are not.
- A binding whose sanitized name is `NODE` or ends in `_NODE` loses its local path in the node
  contract, and can displace the node-local path of another binding, even if it is not
  materialized itself (`LocalPathReadableIff`, `FaithfulIffUndisturbed`).
- The projection writes of recovery ignore their errors (pkg/executor/executor.go:1448). One lost
  write is enough for a run to be recorded as Succeeded while its node is Running
  (`SucceedsWithoutItsNode`).
- Admission and the start of the graph write the run's status without looking at it
  (pkg/executor/executor.go:130, pkg/executor/executor.go:308), so a Cancel call in between is
  overwritten and the run is running again (`CancellationIsOverwritten`; `CancellationIsUndoneBy`
  lists every event that does this).
- Recovery leaves a node alone that a racing Cancel call ended, while the undisturbed runner
  overwrites it: `RepairEqualsNoCrash` says when the two agree.
- A node name with surrounding blanks passes applyPlacementHints and is then refused by
  validatePlacement (`PlaceFromHints`).
- SQLite addresses a node update by the ids inside the document and refuses repeated node ids in
  CreateRun; memory does neither (`SqliteRegistry.Registry.UpdateNode`, `CreateRun`).

## Model

| member | source | states |
|---|---|---|
| ProtocolSafety.SubmittedAtMostOnce | pkg/executor/executor.go:637-946 | With durable handles, in every reachable state StartNode was issued at most once for the node, over all attempts, crashes, restarts and Cancel calls, whatever MaxAttempts is. |
| ProtocolSafety.SubmissionStaysOnRecord | pkg/executor/reconcile.go:70-105 | An attempt whose fence was opened or that was started stays the current attempt, is on record by a terminal status, a fence or the node's handle, and the classifier answers neither Fresh nor ResumePreFence. |
| ProtocolSafety.RecordedJobIsNeverAbandoned | pkg/executor/executor.go:1395-1420 | A fence or handle on record implies the node is Releasing, Running or terminal, and whatever classifies as Reattach passes the status filter of tryRestoreHandle. |
| ProtocolSafety.OpportunityBudget | pkg/executor/executor.go:861-874 | AttemptCount equals the number of fences opened, never exceeds effectiveMaxAttempts whatever failed before a fence, and the budget-exhausted branch is unreachable. |
| ProtocolSafety.ReachableInv | pkg/executor/executor.go:833-941 | The inductive invariant behind these: what the records say about fence, handle and counters, and what the runner may rely on at each program point. |
| ProtocolNecessity.SubmitsTwice | pkg/executor/executor.go:890-901 | Without durable handles some schedule reaches a state in which the same node was started twice. |
| ProtocolNecessity.AtMostOnceExactlyWhenHandlesAreDurable | pkg/executor/executor.go:890-901 | For every configuration, all reachable states have at most one StartNode if and only if handles are durable. |
| ProtocolIdentity.RealizationsStayBelowCeiling | pkg/executor/executor.go:1006-1064 | Across all crashes and failures RealizationAttemptCount never exceeds a positive ceiling, and a node that classifies as Fresh is strictly below it. |
| ProtocolIdentity.OneUnfinishedAttemptAlwaysFresh | pkg/registry/memory.go:221-259 | With a reliable store a node's attempt ids are exactly the deterministic ids 1 to RealizationAttemptCount, only the current attempt can be unfinished, and the next allocation overwrites no record. |
| ProtocolFinalized.CompletedMeansFinalized | pkg/executor/executor.go:1234-1268 | In every reachable state, with no hypothesis, a Completed attempt or the current attempt of a Succeeded node has had every non-empty declared output registered under its own id and its success notification accepted. |
| ProtocolTermination.RunnerReturns | pkg/executor/executor.go:648-653 | If the store is reliable or the ceiling is at most one, a runner that has taken more than Bound steps has returned, whatever else happens in between. |
| ProtocolTermination.LoopsExactlyOnFailingWrites | pkg/executor/executor.go:1006-1064 | Some runner can come back to a state it was in by its own steps if and only if registry writes can fail and the ceiling exceeds one. |
| ProtocolRecovery.UnresolvedRecoveryStutters | pkg/executor/executor.go:1473-1576 | While nothing is learned about the backend, any number of restarts leaves node, attempts, counters, fence and the calls issued unchanged and the run open. |
| ProtocolRecovery.FoundIsAttachedToSameAttempt | pkg/executor/executor.go:1544-1576 | A FOUND with a stored handle changes exactly the handle of the current attempt and its mirror, and the runner goes on to wait for that attempt. |
| ProtocolRecovery.RepairEqualsNoCrash | pkg/executor/executor.go:1212-1264 | For every attempt whose outcome WaitNode reported, a crash between the attempt write and the node write followed by recovery gives the node the status, stop cause and failure reason no crash would have given it exactly when `Agrees`: never over a node that was already ended concurrently unless the cancellation is the same; in a canceled run with a failed workload only if the report already was that cancellation; otherwise if and only if the stop cause is not "canceled", and then the attempts agree too. |
| ProtocolVerdict.ResultsAreTruthful | pkg/executor/executor.go:637-946 | In every reachable state in which a runner has returned: a Failed node has returned an error; unless a registry call failed, a Succeeded node has returned nil, and nil and an error both mean a terminal node; an unresolved return has flagged the run. |
| ProtocolVerdict.SucceededRunEndedItsNode | pkg/executor/executor.go:420-539 | With a reliable store, a run recorded as Succeeded has its node Skipped, or Succeeded with every declared output registered and success notified under its current attempt. |
| ProtocolVerdict.SucceedsWithoutItsNode | pkg/executor/executor.go:1445-1468 | Without one, some schedule records a run as Succeeded while its node is Running: a timeout, a crash and one lost repair write. |
| ProtocolVerdict.SuccessIsBackedExactlyWhenReliable | pkg/executor/executor.go:420-539 | For every configuration, all runs recorded as Succeeded have their node Succeeded or Skipped if and only if the store is reliable. |
| ProtocolAnswers.SuccessWasReported | pkg/executor/executor.go:1192-1268 | In every admissible schedule, with no hypothesis, a Completed attempt and the current attempt of a Succeeded node were answered WaitSucceeded by WaitNode. |
| ProtocolOutcomes.FailureIsRecorded | pkg/executor/executor.go:1211-1232 | In an uncanceled run a WaitFailed answer leads to an Errored attempt and a Failed node with the reported cause and trimmed reason (or "failed" and "node_execution_failed"), no other record changed, and an error. |
| ProtocolOutcomes.FailureOfACanceledRun | pkg/executor/executor.go:1211-1232 | In a canceled run the same answer leads to a canceled attempt and node with the reason of the run, and nil. |
| ProtocolOutcomes.LostObservationDecidesNothing | pkg/executor/executor.go:1194-1210 | An error of WaitNode, unless the wait was interrupted or the run canceled, changes no record and leaves the node unresolved. |
| ProtocolOutcomes.InterruptedWaitCancels | pkg/executor/executor.go:1194-1210 | Otherwise attempt and node are canceled. |
| ProtocolOutcomes.SuccessIsRecorded | pkg/executor/executor.go:1233-1268 | A WaitSucceeded answer registers exactly the named outputs, notifies, and leaves a Completed attempt and a Succeeded node with the reported cause and reason, and nil, for any list of outputs. |
| ProtocolOutcomes.RefusedOutputDefers | pkg/executor/executor.go:1124-1156 | If an output is refused, those before it stay registered, the attempt keeps its status with its completion on record, and the node is unresolved. |
| ProtocolOutcomes.RefusedNotificationDefers | pkg/executor/executor.go:1124-1156 | So it does if the notification is refused. |
| ProtocolStarts.FailedCallsWriteNothing | pkg/executor/executor.go:637-946 | A step whose registry call fails changes neither the node nor any attempt. |
| ProtocolStarts.OnlyRefusalsFail | pkg/executor/executor.go:736-874 | A runner comes to a failure before the fence, with this reason and retryable or not, exactly from the refusals of the table `Refusal`. |
| ProtocolStarts.RefusedAttemptFails | pkg/executor/executor.go:1027-1098 | Without room for a retry a refusal leaves an Errored attempt and a Failed node with its reason, and an error. |
| ProtocolStarts.RefusedAttemptIsCanceled | pkg/executor/executor.go:1027-1064 | In a canceled run it leaves a canceled attempt and node instead. |
| ProtocolStarts.RefusedAttemptIsRetried | pkg/executor/executor.go:1041-1061 | Below the ceiling a retryable refusal leaves the attempt Errored and marked for repetition, the node pending without attempt, and the runner at its first read. |
| ProtocolStarts.ExhaustedBudgetFails | pkg/executor/executor.go:861-866 | As many fences as the budget allows fail attempt and node with attempt_budget_exhausted, without a start. |
| ProtocolStarts.BindsInputs | pkg/executor/executor.go:750-817 | For any number of bindings, inputs that resolve change nothing but the status. |
| ProtocolStarts.OpensTheFence | pkg/executor/executor.go:818-874 | From the placement to StartNode: status Releasing, the fence on the attempt and one more opportunity, nothing else. |
| ProtocolStarts.FailedStartDecidesNothing | pkg/executor/executor.go:876-892 | An error of StartNode changes no record and leaves the node unresolved. |
| ProtocolStarts.StartIsRecorded | pkg/executor/executor.go:893-945 | A start leaves a bare Started record without fence and handle, and a Running node that carries the stored handle. |
| ProtocolResumes.DecisionTable | pkg/executor/reconcile.go:70-105 | The classifier answers each decision exactly in its case, six conditions on node and current attempt that exclude each other. |
| ProtocolResumes.EndedNodeIsLeftAlone | pkg/executor/executor.go:663-691 | An ended node is returned with at once and unchanged, as an error exactly if it failed. |
| ProtocolResumes.EndedAttemptIsProjected | pkg/executor/executor.go:1445-1468 | An ended attempt gives the node its stop cause, reason and status (Canceled by its cause, else by its status) and keeps its own record. |
| ProtocolResumes.KnownHandleIsWaitedFor | pkg/executor/executor.go:1395-1420 | A recorded handle that can be restored is waited for with nothing changed. |
| ProtocolResumes.LostHandleDecidesNothing | pkg/executor/executor.go:1272-1286 | One that cannot be leaves everything unchanged and unresolved. |
| ProtocolResumes.UnknownJobDecidesNothing | pkg/executor/executor.go:1502-1537 | With a fence and no handle, any answer but FOUND leaves everything unchanged and unresolved. |
| ProtocolResumes.FoundJobIsRecordedAndCanceled | pkg/executor/executor.go:1544-1576 | A found Job has its handle stored first; with a stored intent or a canceled run it is waited for exactly if CancelNode succeeds, and is unresolved otherwise. |
| ProtocolResumes.UnfencedAttemptIsResumed | pkg/executor/executor.go:706-722 | An attempt without fence and handle is resumed under its own id. |
| ProtocolResumes.VacantNodeGetsTheNextAttempt | pkg/executor/executor.go:722-734 | A node without a current attempt, or with one to be repeated, gets a bare Prepared attempt numbered one above its realizations. |
| ProtocolResumes.DrivenAttemptIsCanceled | pkg/executor/executor.go:1358-1369 | A cancellation drive allocates and submits nothing and cancels the attempt before its fence together with the node. |
| ProtocolResumes.UndisturbedLife | pkg/executor/executor.go:637-946 | From a vacant node within its budget to nil, for any numbers of bindings and outputs: one allocation, fence and StartNode of the next attempt, all named outputs registered, and the exact final records. |
| ProtocolCancel.CancelTakesEffect | pkg/executor/executor.go:144-207 | A whole undisturbed Cancel call cancels an open run and a node that is not running with the given reason, stores the intent on the current attempt of a running one, and leaves ended runs and nodes alone. |
| ProtocolCancel.CancellationIsUndoneBy | pkg/executor/executor.go:127-143 | A canceled run stops being canceled exactly by an admission, a graph start, or a verdict read before the cancellation or belied by the handoff service. |
| ProtocolCancel.CancellationIsOverwritten | pkg/executor/executor.go:306-312 | For every configuration some schedule cancels a run that is running again one event later. |
| ProtocolCancel.IntentIsConfirmedBeforeTheWait | pkg/executor/executor.go:1544-1576 | In every continuation without a crash, a runner that finds a fence without a handle and a stored intent comes to wait for the Job only after CancelNode succeeded. |
| ProtocolCancel.AdmittedRunStarts | pkg/executor/executor.go:127-143 | Admission and graph start leave a running run with its runner at the first read. |
| ProtocolCancel.RestartDispatches | pkg/executor/reconcile.go:115-161 | After a restart an open run is executed again, an ended one with an open node is driven to its end, and any other is left alone. |
| ProtocolCancel.GraphEndDispatches | pkg/executor/executor.go:209-264 | A successful graph goes to the verdict, an unresolved node keeps the run open, and any other end skips a node that is still pending. |
| ProtocolCancel.VerdictIsRecorded | pkg/executor/executor.go:420-539 | The final record of a run for every list of other nodes: canceled, failed or succeeded in the order of finalizeRun, with stop cause and finish, a success withdrawn if the handoff service refuses it. |
| ProtocolCancel.LostVerdictFailsARunningRun | pkg/executor/executor.go:236-262 | A verdict that cannot be read or written fails a run that is marked running with finalize_error, and leaves any other alone. |
| NodeRunner.Runner.RunE | pkg/executor/executor.go:637-654 | When retries end, RunE returns, having moved by steps of the protocol alone while others interfere; a Failed node is an error, nil means a terminal node (reliable store), an unresolved return leaves the run flagged, and StartNode was issued at most once if handles are durable. |
| NodeRunner.Runner.Rounds | pkg/executor/executor.go:648-653 | For every configuration and any number of rounds of the loop: steps of the protocol alone, a truthful result if one of them returned, and at most one StartNode if handles are durable. |
| NodeRunner.Runner.RunAttemptBody | pkg/executor/executor.go:693-946 | One realization leads by steps of the protocol alone either to a return with a truthful result or back to the start of the loop, with a smaller bound. |
| NodeRunner.Runner.ReconcileBeforeAllocation | pkg/executor/executor.go:663-691 | By steps of the protocol: handled decisions end in a return with a truthful result, the others at allocation or resumption (at cancellation when driven). |
| NodeRunner.Runner.ObtainAttempt | pkg/executor/executor.go:706-734 | By steps of the protocol: the current attempt is resumed or the next one allocated, or the runner has returned an error. |
| NodeRunner.Runner.ResolveInputs | pkg/executor/executor.go:736-831 | By steps of the protocol: the attempt comes to its preparation, or its failure before the fence has been dealt with. |
| NodeRunner.Runner.ResolveBindings | pkg/executor/executor.go:750-817 | By steps of the protocol: the bindings are resolved, or their failure has been dealt with. |
| NodeRunner.Runner.ResolveEachBinding | pkg/executor/executor.go:765-816 | By one protocol step per binding: all of them are resolved, or the first that is not has failed the attempt. |
| NodeRunner.Runner.Release | pkg/executor/executor.go:833-852 | By steps of the protocol: the fence is open and StartNode comes next, or the failure before it has been dealt with. |
| NodeRunner.Runner.OpenFence | pkg/executor/executor.go:861-874 | By steps of the protocol: the budget admits the attempt and the fence is open, or the runner failed or retries without a start. |
| NodeRunner.Runner.ExhaustBudget | pkg/executor/executor.go:863-866 | By steps of the protocol from an exhausted budget to a return, without a start. |
| NodeRunner.Runner.Submit | pkg/executor/executor.go:876-892 | By steps of the protocol from an open fence to a return; an error of StartNode ends unresolved. |
| NodeRunner.Runner.RecordStarted | pkg/executor/executor.go:893-945 | By steps of the protocol: handle, Started record, Running status, then waiting to a return. |
| NodeRunner.Runner.MarkStartedAndRunning | pkg/executor/executor.go:897-945 | By steps of the protocol from the Started record to a return. |
| NodeRunner.Runner.FailNode | pkg/executor/executor.go:1027-1064 | By steps of the protocol a failure before the fence ends in a return (canceled or failed) or at the start of the loop. |
| NodeRunner.Runner.PrepareRetry | pkg/executor/executor.go:1041-1061 | By steps of the protocol from the failed attempt to the start of the loop, with a smaller bound. |
| NodeRunner.Runner.TerminalizeFailed | pkg/executor/executor.go:1072-1098 | By the protocol's terminal step to an error in any case; with a reliable store the node is Failed with the given stop cause and reason. |
| NodeRunner.Runner.FinishFailed | pkg/executor/executor.go:1213-1232 | By steps of the protocol from a reported failure to an error with the node Failed by it, or to nil with the node Canceled (reliable store). |
| NodeRunner.Runner.WaitAndFinalize | pkg/executor/executor.go:1192-1268 | By steps of the protocol from WaitNode's answer to a return. With a reliable store and any interference: a reported failure is an error with the node Failed by its cause and trimmed reason, or a cancellation; a reported success is nil with the node Succeeded by its cause and reason, or unresolved; a lost observation is unresolved or a cancellation. |
| NodeRunner.Runner.RegisterNodeOutputs | pkg/executor/executor.go:1792-1839 | By one protocol step per declared output: success exactly at the notification, failure exactly at the deferral. |
| NodeRunner.Runner.FinishSucceeded | pkg/executor/executor.go:1233-1268 | By steps of the protocol from a reported success to a return: nil with the node Succeeded by it (reliable store), or unresolved and flagged. |
| NodeRunner.Runner.DeferFinalization | pkg/executor/executor.go:1124-1156 | By the protocol's deferral step to an unresolved, flagged return. |
| NodeRunner.Runner.CancelNode | pkg/executor/executor.go:1158-1188 | By steps of the protocol to a return; with a reliable store nil and a Canceled node. |
| NodeRunner.Runner.DriveCancellation | pkg/executor/executor.go:1328-1369 | By steps of the protocol from the start of cancellation recovery to a return; nil means a terminal node (reliable store). |
| NodeRunner.Runner.MarkNodeCanceledNoAttempt | pkg/executor/executor.go:1374-1389 | By steps of the protocol to a return with a terminal node (reliable store). |
| NodeRunner.Runner.Reattach | pkg/executor/executor.go:1272-1286 | By steps of the protocol: restored and waited for, or unresolved and flagged. |
| NodeRunner.Runner.RepairTerminalProjection | pkg/executor/executor.go:1445-1468 | By the protocol's repair step to a return; nil means a terminal node (reliable store). |
| NodeRunner.Runner.ReconcileUnresolved | pkg/executor/executor.go:1473-1487 | By the protocol's unresolved step to a return that leaves the run flagged. |
| NodeRunner.Runner.ReconcileByIdentity | pkg/executor/executor.go:1502-1537 | By steps of the protocol from the read-only lookup to a return. |
| NodeRunner.Runner.AttachResolvedHandle | pkg/executor/executor.go:1544-1576 | By steps of the protocol from a found Job to a return. |
| NodeRunner.OthersKeep | pkg/executor/executor.go:144-207 | Cancel calls and the run goroutine never move a runner and never take a node out of a terminal status; what a Cancel call does change is CancelTakesEffect. |
| AttemptId.IdentityCollision | pkg/spec/types.go:80-82 | Two attempt ids are equal if and only if the numbers and the joined run and node names are. |
| AttemptId.InjectiveWithinRun | pkg/spec/types.go:80-82 | Within a run node id and attempt number are determined by the attempt id, also for node ids containing "-attempt-". |
| AttemptId.CollidesAcrossRuns | pkg/spec/types.go:80-82 | Run "a-b" node "c" and run "a" node "b-c" share their attempt ids. |
| RegistryEquivalence.Replay | pkg/registry/sqlite.go:108-143 | For every schedule of well-formed operations and every choice of failing SQL statements, SQLite holds exactly what memory holds after the operations SQLite acknowledged; without a fault both succeed, or both fail with the same error, except that a mutation of an attempt that does not exist is always AttemptNotFound in SQLite. |
| StoreLaws.AllocationReadsBack | pkg/registry/memory.go:221-259 | Refused exactly while the current attempt is on record and unfinished; otherwise the node points to a bare Prepared attempt numbered one above its realizations. |
| StoreLaws.FenceReadsBack | pkg/registry/memory.go:266-285 | Opens the fence of the current attempt and counts one opportunity, or fails exactly for any other attempt. |
| StoreLaws.HandleReadsBack | pkg/registry/memory.go:296-311 | The handle is on its attempt, and on the node exactly if that attempt is current. |
| StoreLaws.CreationReadsBack | pkg/registry/memory.go:42-57 | A new run has its record, no events and for each node id the last record given; every other run is untouched. |
| MemoryRegistry.Registry.CreateRun | pkg/registry/memory.go:42-57 | Refuses a known run; otherwise adds the run and one cell per node id, the last record winning. |
| MemoryRegistry.Registry.GetRun | pkg/registry/memory.go:59-67 | The stored run or RunNotFound. |
| MemoryRegistry.Registry.GetNode | pkg/registry/memory.go:80-91 | The stored node, or which of run and node is missing. |
| MemoryRegistry.Registry.GetCurrentAttempt | pkg/registry/memory.go:204-219 | The attempt the node points to, none if it points nowhere or to no record. |
| MemoryRegistry.Registry.UpdateRun | pkg/registry/memory.go:145-157 | Replaces the run by the update, or changes nothing. |
| MemoryRegistry.Registry.UpdateNode | pkg/registry/memory.go:159-175 | Replaces the node by the update, or changes nothing. |
| MemoryRegistry.Registry.UpsertAttempt | pkg/registry/memory.go:177-190 | Replaces the whole attempt record; needs an existing node. |
| MemoryRegistry.Registry.AllocateCurrentAttempt | pkg/registry/memory.go:221-259 | Refuses while the current attempt is unfinished; otherwise adds the next numbered attempt, points the node to it and returns it. |
| MemoryRegistry.Registry.OpenSemanticAttempt | pkg/registry/memory.go:266-285 | Only for the current attempt: sets its fence and counts one opportunity. |
| MemoryRegistry.Registry.MutateAttempt | pkg/registry/memory.go:344-360 | Sets exactly the facts of a fence, a cancellation intent or a process completion on one attempt record, every other field and record as before. |
| MemoryRegistry.Registry.PersistSubmissionFence | pkg/registry/memory.go:287-294 | The record read back has its fence opened and every other field as before. |
| MemoryRegistry.Registry.PersistCancellationIntent | pkg/registry/memory.go:313-321 | The record read back carries the request and its reason and every other field as before. |
| MemoryRegistry.Registry.PersistProcessCompleted | pkg/registry/memory.go:323-330 | The record read back has its process completed and every other field as before. |
| MemoryRegistry.Registry.PersistBackendHandle | pkg/registry/memory.go:296-311 | Stores the handle on the attempt, and on the node if that attempt is current. |
| MemoryRegistry.Registry.AppendEvent | pkg/registry/memory.go:192-200 | Appends to the events of an existing run. |
| SqliteRegistry.Registry.CreateRun | pkg/registry/sqlite.go:108-143 | Succeeds without fault exactly when the run is new and no node's primary key is taken, and then inserts exactly the given rows; any error leaves all tables alone. For nodes of the run that means distinct node ids, with memory's effect. |
| SqliteRegistry.Registry.GetRun | pkg/registry/sqlite.go:145-159 | Reads what the tables mean. |
| SqliteRegistry.Registry.GetNode | pkg/registry/sqlite.go:577-595 | Reads what the tables mean, with the same two error cases as memory. |
| SqliteRegistry.Registry.GetCurrentAttempt | pkg/registry/sqlite.go:362-375 | Reads what the tables mean. |
| SqliteRegistry.Registry.UpdateRun | pkg/registry/sqlite.go:267-299 | Same successes, errors and effect as memory without a fault; unchanged tables on any error; promoted columns stay equal to the document. |
| SqliteRegistry.Registry.UpdateNode | pkg/registry/sqlite.go:301-319 | As UpdateRun, and the effect equals memory's if and only if the update keeps the node's ids. |
| SqliteRegistry.RewriteHitsTheNodeReadIffIdsKept | pkg/registry/sqlite.go:613-622 | Writing by the ids in the document replaces the node that was read if and only if those ids are unchanged. |
| SqliteRegistry.Registry.UpsertAttempt | pkg/registry/sqlite.go:321-338 | As UpdateRun, for the attempt upsert. |
| SqliteRegistry.Registry.AllocateCurrentAttempt | pkg/registry/sqlite.go:377-426 | As UpdateRun; both rows are written or none, and the attempt returned is the node's current one. |
| SqliteRegistry.Registry.OpenSemanticAttempt | pkg/registry/sqlite.go:433-464 | As UpdateRun; fence and opportunity count change together or not at all. |
| SqliteRegistry.Registry.MutateAttempt | pkg/registry/sqlite.go:520-539 | Succeeds without fault exactly when memory does, with the same effect, and is AttemptNotFound otherwise; unchanged tables on any error. |
| SqliteRegistry.Registry.PersistSubmissionFence | pkg/registry/sqlite.go:466-471 | As in memory, or an error and unchanged tables. |
| SqliteRegistry.Registry.PersistCancellationIntent | pkg/registry/sqlite.go:505-511 | As in memory, or an error and unchanged tables. |
| SqliteRegistry.Registry.PersistProcessCompleted | pkg/registry/sqlite.go:513-518 | As in memory, or an error and unchanged tables. |
| SqliteRegistry.Registry.PersistBackendHandle | pkg/registry/sqlite.go:473-503 | As MutateAttempt, with the mirror on the node. |
| SqliteRegistry.Registry.AppendEvent | pkg/registry/sqlite.go:340-358 | As UpdateRun, for the run's event list in insertion order. |
| SqliteTables.WriteNodeView | pkg/registry/sqlite.go:613-622 | Updating a node row keeps the promoted columns equal to the documents and replaces exactly one node. |
| SqliteTables.WriteAttemptView | pkg/registry/sqlite.go:624-634 | Upserting an attempt row keeps them equal and changes exactly one attempt of one node. |
| Validate.ValidateExecutableRunSpec | pkg/spec/validate.go:11-109 | Accepts if and only if the spec is well-formed and no node reaches itself along edges, reports a cycle if and only if it is well-formed and some node does, whatever order the node map yields. |
| Validate.Search.Visit | pkg/spec/validate.go:83-102 | The recursive visit ends (fewer unseen nodes), reports a cycle only if one exists, and on success leaves the node finished and the stack as it was. |
| Validate.Search.VisitSuccessors | pkg/spec/validate.go:95-99 | The loop inside visit: all successors finished, or a cycle exists. |
| Validate.BackwardsIsAcyclic | pkg/spec/validate.go:83-107 | If the nodes can be listed so that every edge points backwards, no node reaches itself. |
| Validate.AcceptedPartsAreComplete | pkg/spec/validate.go:22-81 | What an accepted specification promises of its nodes, bindings, labels and edges, one by one. |
| Validate.CheckNode | pkg/spec/validate.go:23-62 | Accepts exactly the well-formed nodes with a new id. |
| Validate.CheckNodes | pkg/spec/validate.go:22-63 | Accepts exactly the lists of well-formed nodes with distinct ids and returns these ids. |
| Validate.CheckEdges | pkg/spec/validate.go:65-81 | Accepts exactly the edge lists without self-loops between known nodes and returns their adjacency. |
| JobLabels.SanitizeLabelValue | pkg/spawner/k8s_jobclient.go:546-562 | The loop writes every stretch of forbidden characters as one dash, keeps all others in order, and cuts exactly the punctuation off both ends. |
| JobLabels.SanitizedIsFixpointIffClean | pkg/spawner/k8s_jobclient.go:546-562 | Sanitizing leaves a string alone if and only if it has label characters only and no punctuation at its ends; the result always has these properties. |
| JobLabels.IdentityLabelIsPlain | pkg/spawner/k8s_jobclient.go:521-544 | identityLabelValue always answers a non-empty lower-case label value of at most 63 characters. |
| JobLabels.PlainLabelsAreAnswered | pkg/spawner/k8s_jobclient.go:521-544 | Every such label value is the answer for itself and for itself with a blank in front. |
| JobLabels.LabelIsNameOrHashed | pkg/spawner/k8s_jobclient.go:526-543 | A name whose trimmed lower-case form is a label value is answered with it; any other answer ends in the name's hash. |
| JobLabels.HashedKeepsItsPrefix | pkg/spawner/k8s_jobclient.go:526-543 | In front of the hash stands the sanitized name, or its first 54 characters without punctuation at their end. |
| JobLabels.SharedLabelsNeedEqualHashes | pkg/spawner/k8s_jobclient.go:526-543 | Two names that are not labels themselves get the same label only if their hashes collide. |
| JobClient.BuildLabels | pkg/spawner/k8s_jobclient.go:502-519 | The system labels overridden by exactly the permitted user labels, in any iteration order. |
| JobClient.MarksSurviveUserInput | pkg/spawner/k8s_jobclient.go:391-402 | No user label or annotation displaces the marker annotation or the marker label. |
| JobClient.JobCarriesItsIdentity | pkg/spawner/k8s_jobclient.go:391-402 | The Job names run, node, attempt and trace of its request as annotations and labels, the run id of the request before that of its environment. |
| JobClient.LabelsAreSystemOrUser | pkg/spawner/k8s_jobclient.go:502-519 | A label of the Job is a permitted one of the user or a system label, and all of these are there. |
| JobClient.OutcomeMeans | pkg/backend/attempt_resolver.go:92-119 | Absent exactly if the read says so, Found and Conflict exactly by the full marker annotation, Unknown exactly for a failed read or an empty marker. |
| JobClient.OwnershipAgreesIffNotALabel | pkg/spawner/k8s_jobclient.go:88-96 | For every Job this client can have built, Create adopts it exactly when its marker equals the request's, which is exactly when ResolveByIdentity answers Found: for all Jobs if and only if the marker is not empty and not a plain label value. |
| JobClient.LongMarkersAgree | pkg/backend/attempt_resolver.go:92-119 | In particular for all markers longer than 63 characters. |
| JobClient.ValidateCreateRequest | pkg/spawner/k8s_jobclient.go:445-480 | Accepts exactly the requests with run, node and attempt id, a consistent placement and permitted user labels. |
| JobClient.CheckUserLabels | pkg/spawner/k8s_jobclient.go:459-472 | Accepts exactly the user labels that are all permitted, in any iteration order. |
| JobClient.BuiltLabelsAreValid | pkg/spawner/k8s_jobclient.go:473-478 | The labels built from permitted user labels always pass the second check, whatever the ids are. |
| JobClient.Cluster.Create | pkg/spawner/k8s_jobclient.go:65-86 | Rejects an unacceptable request; otherwise creates the described Job if the name is free, adopts or refuses an existing one by its marker, and changes nothing else. |
| JobClient.Cluster.CreateTwice | pkg/spawner/k8s_jobclient.go:62-86 | A repeated submission of an acceptable request adopts the Job of the first and changes nothing. |
| JobClient.Cluster.CreateThenResolve | pkg/backend/attempt_resolver.go:92-119 | A created Job is found by its own marker and in conflict with any other. |
| EnvSegment.SanitizeEnvSegment | pkg/executor/executor.go:2208-2231 | The loop answers the base of the name, which spells its words as SegmentSpells says. |
| EnvSegment.SegmentSpells | pkg/executor/executor.go:2208-2231 | For every name: the word characters of the base are those of the name in upper case and in order, an underscore stands between two of them exactly where others stood, none at the ends, and the base is UNSPECIFIED exactly if the name has no word character. |
| EnvSegment.SegmentIsStable | pkg/executor/executor.go:2208-2231 | A base is never empty, has no underscore at its ends and no two in a row, and is its own base. |
| EnvSegment.ValidateResolvedBindingEnvKeys | pkg/executor/executor.go:2233-2244 | Accepts exactly the bindings with pairwise distinct bases. |
| EnvKeys.ParseKey | pkg/backend/spawner_k8s.go:737-769 | Each key injected for a base is read back as that base and field, skipped if no contract needs it, except local paths of bases NODE or ending in _NODE. |
| EnvKeys.ReceiverReads | pkg/backend/spawner_k8s.go:760-768 | The local path of such a base is read as the node-local path of the base in front of _NODE, under that base's own key, or of NODE_LOCAL_PATH. |
| EnvKeys.LocalPathReadableIff | pkg/backend/spawner_k8s.go:760-768 | Some key, of any environment, gives a base a local path if and only if the base is not NODE and does not end in _NODE. |
| ContractEnv.ExecutionEnv.InjectResolvedBindingEnv | pkg/executor/executor.go:1904-1930 | Adds exactly the keys of the fields the resolved binding has and changes no other key. |
| ContractEnv.InjectedVariables | pkg/executor/executor.go:1904-1930 | The eight variables every binding has, by their full names and values. |
| ContractEnv.InjectedOptionalVariables | pkg/executor/executor.go:1904-1930 | Size, node-local path and local path are there if the binding has them. |
| ContractEnv.ExecutionEnv.InjectAll | pkg/executor/executor.go:815-815 | The bindings' entries are added one after the other. |
| ContractEnv.ExecutionEnv.StripContractInputEnv | pkg/backend/spawner_k8s.go:590-602 | Removes exactly the input keys with a contract suffix. |
| ContractEnv.Gather | pkg/backend/spawner_k8s.go:738-769 | In whatever order the environment is iterated, every key that is read contributes and nothing else. |
| ContractEnv.BuildNodeContractInputs | pkg/backend/spawner_k8s.go:737-804 | The inputs of the gathered bases, sorted, those without materialization left out. |
| ContractEnv.ReadingIsDeterminedIff | pkg/backend/spawner_k8s.go:738-769 | What is read is independent of the iteration order if and only if keys read alike carry the same value. |
| StringOrder.SortedListingIsUnique | pkg/backend/spawner_k8s.go:773-777 | A set of bases has one sorted listing. |
| StringOrder.SortStrings | pkg/backend/spawner_k8s.go:773-777 | Lists a set in increasing order. |
| ContractRoundTrip.ReadsBackWhatWasWritten | pkg/backend/spawner_k8s.go:737-769 | With no earlier input keys, distinct bases and no unreadable local path, exactly the injected contract fields are read back, in any iteration order. |
| ContractRoundTrip.SizeReadsBack | pkg/backend/spawner_k8s.go:793-797 | A size printed by FormatInt is parsed back, for all non-negative 64-bit sizes. |
| ContractRoundTrip.StrippedIffRead | pkg/backend/spawner_k8s.go:590-602 | A key is stripped if and only if it is read. |
| ContractFaithful.FaithfulIffUndisturbed | pkg/executor/executor.go:1904-1930 | For any mix of bindings, every reading of the environment gives every binding the entry of its own trimmed fields if and only if no materialized binding has its local path under a base NODE or ending in _NODE, or its node-local path displaced by one that has; if all are materialized, any single reading is faithful iff no local path is under such a base. |
| ContractRoundTrip.NodeBaseLosesItsLocalPath | pkg/backend/spawner_k8s.go:760-768 | Such a binding's contract entry has an empty local path, whatever else the environment holds. |
| ContractRoundTrip.ContractTrip | pkg/backend/spawner_k8s.go:557-588 | Inject, build, strip: the contract lists the bindings' own fields in base order, and what is left is exactly what was not read. |
| Placement.ExecutionNode.ApplyPlacementHints | pkg/executor/executor.go:1955-2022 | Succeeds exactly when the hints can be merged; a required node becomes required name and hostname selector with no preferred nodes, otherwise the preferred names are set in first-occurrence order with weight 100; a failure changes no placement. |
| Placement.Scan | pkg/executor/executor.go:1959-1979 | Finds the one required name if the required hints agree. |
| Placement.CollectPreferred | pkg/executor/executor.go:2003-2017 | The loop collects the preferred names without repetition. |
| Placement.PreferredByFirstOccurrence | pkg/executor/executor.go:2003-2017 | Those are exactly the names asked for, each once, ordered by their first hint. |
| Placement.OrderOfHintsIsIrrelevant | pkg/executor/executor.go:1955-2022 | Any permutation of the hints merges or fails alike and asks for the same names. |
| Placement.ToAttemptRequest | pkg/backend/spawner_k8s.go:901-914 | The request carries the node's placement unchanged. |
| Placement.PlaceFromHints | pkg/spawner/k8s_jobclient.go:482-490 | From a cloned node to the Job: a required node is what the node selector demands, validatePlacement accepts it if and only if its name has no surrounding blanks; otherwise the declared selector and the preferred names are kept. |
| Placement.InvalidIffOverriding | pkg/spawner/k8s_jobclient.go:482-490 | A required node is what the Job demands, all else is the selector, and it is refused exactly if it would override another node the selector demands. |
| RunFold.FoldNodes | pkg/executor/executor.go:429-469 | The status depends on the multiset of node statuses only: canceled run, then failed node, then canceled node, then failed graph, then success; the counters count each class. |
| RunFold.RunRow.FinalizeRun | pkg/executor/executor.go:429-536 | With the handoff calls and failing registry writes: each failed call turns success, and nothing else, into failure; an error means that no verdict was written, or that a success was written which a handoff call then belied. |
| RunFold.CountersPartitionTheNodes | pkg/executor/executor.go:430-457 | The five counters and the nodes still waiting for inputs add up to the number of nodes. |

## Left out

- The dag-go scheduler and the spawner runtime: only the assumptions listed above are used.
- The Kubernetes API, watches, pod exec, gRPC and HTTP clients, metrics, main and the smoke tools.
- Event records of the protocol, bottleneck strings, observations and locality metrics: no decision reads them.
- The fast-fail watcher and CausedByNodeID: it cancels the runners' contexts, which any answer of the environment may do.
- NodeRunner.Runner.ResolveEachBinding: the retries for one binding are one answer of the environment, because they write nothing but events.
- NodeRunner.Runner.RecordStarted: leaves out the scheduling observation between the two writes, because it changes only a field no decision reads.
- ProtocolCancel.IntentIsConfirmedBeforeTheWait: ends at a crash, because a handle stored before it is then reattached, an arm that in an open run never looks at the intent.
- NodeRunner.Runner.DriveCancellation: does not say that the backend confirmed the cancellation, because the reattach arm ignores CancelNode's error.
- NodeRunner.Runner.RunE: promises nothing when retries need not end, because then RunE need not return; LoopsExactlyOnFailingWrites shows when that is, and Rounds says what any number of its rounds keeps.
- Recover's loops over runs and nodes: the protocol follows one node; the other nodes of its run appear only where finalizeRun counts them.
- RunFold.FoldNodes: does not model the run's failure reason, because it depends on the order of the nodes.
- ListRuns, ListNodes, ListAttempts and ListEvents: plain listings.
- Validate.ValidateExecutableRunSpec: does not tell the error messages of malformed specs apart, because only the verdict is promised.
- ApplyDefaults: field-by-field defaulting.
- JobClient.Cluster.Create: the Job's containers, volumes and affinity are not part of this model, because ownership does not depend on them.
- SHA-256, unicode.ToLower, ToUpper, IsLetter and IsDigit, and the Kubernetes library's IsQualifiedName: parameters of which only the stated properties are used.
- sanitizeResolvedLocalPath: its result is a field of the resolved binding.
- ContractEnv.Gather: keeps the partial inputs as one map from base and field to value instead of a struct per base.
- Preservation of a node's own RequiredNodeName and PreferredNodes: cloneNode drops them.
- States written by older releases: states are those reachable from CreateRun of this code.
