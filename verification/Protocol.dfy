/** The crash-tolerant attempt protocol of one node as a step machine.
  *
  * Durable state: the run record and the node's cell. Volatile state: the run goroutine
  * (`Exec`), the node runner's program counter (`Pc`), the unresolved flag and the
  * cancellation intents a Cancel call has read but not yet stored. Every event performs at
  * most one registry transaction, so a crash or a concurrent Cancel call can fall between
  * any two of them. What the backend, the handoff service and the store answer is part of
  * the event: a schedule is any sequence of events, and `Execute` runs it.
  *
  * Sources: nodeRunner and DagEngine in pkg/executor/executor.go, Recover in reconcile.go.
  */
module Protocol {
  import opened Spec
  import opened Store
  import opened Reconcile
  import opened AttemptState
  import opened Text
  import RunFold

  datatype Config = Config(
    runID: string,
    nodeID: string,
    maxAttempts: int,
    ceiling: int,             // realizationAttemptCeiling
    outputs: seq<string>,     // declared outputs of the node
    bindings: nat,            // artifact bindings of the node
    handleDurable: bool,      // every started handle reaches the store before the Started write
    storeReliable: bool)      // registry transactions do not fail

  /** A first realization is never refused, so this is the bound even for a ceiling below one. */
  function Cap(cfg: Config): nat {
    if cfg.ceiling > 1 then cfg.ceiling else 1
  }

  function EffectiveMaxAttempts(m: int): (r: int)
    ensures if m >= 1 then r == m else r == 1
  {
    if m < 1 then 1 else m
  }

  // ---- answers of the environment ----

  datatype PersistAnswer =
    | Durable(handleJSON: string)   // marshaled and stored
    | NotPersistable                // persistHandle returns nil without storing anything
    | PersistFailed                 // the store refused the handle

  datatype ResolveOutcome = Found | AbsentNow | Unknown | Conflict

  datatype WaitAnswer =
    | WaitError
    | WaitFailed(stopCause: string, reason: string)
    | WaitSucceeded(stopCause: string, reason: string)

  datatype Answer = Answer(
    fault: bool,              // the registry transaction of this step fails
    ok: bool,                 // the adapter, handoff or validation call succeeds
    contextDone: bool,        // the runner's context has been canceled
    reason: string,           // failure reason of a rejected input
    persist: PersistAnswer,
    outcome: ResolveOutcome,
    wait: WaitAnswer)

  // ---- program counters ----

  datatype RunnerResult = ReturnedOk | ReturnedError | ReturnedUnresolved

  // reconcileBeforeAllocation and driveCancellation
  datatype ReconcilePc =
    | Entry(drive: bool)
    | ReadAttempt(drive: bool, snapshot: NodeRecord)
    | Repair(snapshot: NodeRecord, attempt: Option<AttemptRecord>)
    | Restore(fallbackID: string)
    | ResolveIdentity(id: string, cancelRequested: bool)
    | AttachPersist(id: string, cancelRequested: bool)
    | AttachCancel(id: string, cancelRequested: bool)
    | Unresolved(id: string)

  // runAttemptBody: allocation and inputs
  datatype BindPc =
    | Alloc
    | ResumeReady(id: string)
    | Bind(id: string)
    | SetBuilding(id: string)
    | SetResolving(id: string)
    | ResolveInputs(id: string, next: nat)
    | Place(id: string)

  // runAttemptBody: prepare, release, fence
  datatype ReleasePc =
    | SetStarting(id: string)
    | Prepare(id: string)
    | SetReleasing(id: string)
    | Budget(id: string)
    | Open(id: string)

  // runAttemptBody: submission
  datatype SubmitPc =
    | Start(id: string)
    | PersistHandle(id: string)
    | MarkStarted(id: string)
    | SetRunning(id: string)

  // waitAndFinalize: observing the backend
  datatype ObservePc =
    | Wait(id: string)
    | FinishErrored(id: string, stopCause: string, reason: string)
    | NoRetry(id: string, stopCause: string, reason: string)

  // waitAndFinalize: outputs, notification, success
  datatype FinalizePc =
    | Register(id: string, next: nat, stopCause: string, reason: string)
    | Notify(id: string, stopCause: string, reason: string)
    | Complete(id: string, stopCause: string, reason: string)
    | SetSucceeded(id: string, stopCause: string, reason: string)
    | Defer(id: string)

  // failNode and terminalizeFailed
  datatype FailPc =
    | FailUpsert(id: string, reason: string, retryable: bool)
    | FailCheck(id: string, reason: string, retryable: bool)
    | FailBudget(id: string, reason: string, retryable: bool)
    | BudgetUpsert(id: string)
    | TerminalizeFailed(id: string, stopCause: string, reason: string)

  // failNode's re-realization arm
  datatype RetryPc =
    | FailCurrent(id: string)
    | FailMark(id: string, current: AttemptRecord)
    | Reset(id: string)

  // cancelNode and markNodeCanceledNoAttempt
  datatype CancelPc =
    | CancelReason(id: string)
    | CancelUpsert(id: string, reason: string)
    | CancelSet(id: string, reason: string)
    | MarkReason
    | MarkCanceled(reason: string)

  /** Where the node runner is. */
  datatype Pc =
    | Off
    | Done(result: RunnerResult)
    | InReconcile(reconcile: ReconcilePc)
    | InBind(bind: BindPc)
    | InRelease(release: ReleasePc)
    | InSubmit(submit: SubmitPc)
    | InObserve(observe: ObservePc)
    | InFinalize(finalize: FinalizePc)
    | InFail(fail: FailPc)
    | InRetry(retry: RetryPc)
    | InCancel(cancel: CancelPc)

  /** The goroutine of the run: Admit, executeRun, runGraph, finalizeRun, Recover. */
  datatype Exec =
    | Submitted               // CreateRun done, Admit still to come
    | Down                    // process not running
    | Booted                  // process up, Recover still to come
    | Idle
    | Launched                // executeRun started
    | Graph                   // dag running
    | Skipping                // dag failed: pending nodes are skipped next
    | FinalizeRead(succeeded: bool)
    | FinalizeWrite(verdict: RunStatus)
    | FinalizeHandoff(verdict: RunStatus)
    | FinalizeError
    | Driving                 // recoverCanceledRun

  datatype System = System(
    run: RunRecord,
    cell: Cell,
    exec: Exec,
    pc: Pc,
    unresolved: bool,
    intents: set<string>,
    history: History)

  datatype Event =
    | Step(answer: Answer)                       // the node runner's next step
    | Crash
    | Boot
    | Admit(fault: bool)
    | Recover(fault: bool)
    | GetRunFails
    | GraphStart(ok: bool, fault: bool)
    | StartRunner
    | GraphEnd(ok: bool)
    | SkipPending(fault: bool)
    | Finalize(others: seq<NodeStatus>, reason: string, handoffOk: bool, fault: bool)
    | DriveEnd
    | CancelRun(reason: string, fault: bool)
    | CancelNode(reason: string, fault: bool)
    | CancelIntent(id: string, reason: string, fault: bool)

  /** What a configuration rules out. Handles marshal to non-empty JSON and are stored on
    * the start path when handles are durable; nothing faults when the store is reliable. */
  predicate Admissible(cfg: Config, s: System, e: Event) {
    && (e.Step? && s.pc.InSubmit? && s.pc.submit.PersistHandle? && cfg.handleDurable ==>
          e.answer.persist.Durable? && e.answer.persist.handleJSON != "")
    && (cfg.storeReliable ==> !Faults(e))
  }

  predicate Faults(e: Event) {
    match e
    case Step(a) => a.fault
    case Admit(f) => f
    case Recover(f) => f
    case GraphStart(_, f) => f
    case SkipPending(f) => f
    case Finalize(_, _, _, f) => f
    case GetRunFails => true
    case CancelRun(_, f) => f
    case CancelNode(_, f) => f
    case CancelIntent(_, _, f) => f
    case _ => false
  }

  // ---- small updates ----

  function WithNode(s: System, node: NodeRecord): System {
    s.(cell := s.cell.(node := node))
  }

  function WithAttempt(s: System, a: AttemptRecord): System {
    s.(cell := UpsertCell(s.cell, a))
  }

  function Go(s: System, pc: Pc): System {
    s.(pc := pc)
  }

  /** A status write whose error ends the runner. */
  function StatusWrite(s: System, a: Answer, status: NodeStatus, next: Pc): System {
    if a.fault then Go(s, Done(ReturnedError))
    else Go(WithNode(s, s.cell.node.(status := status)), next)
  }

  /** The record literals of UpsertAttempt: everything they do not name is dropped. */
  function NewRecord(cfg: Config, id: string, status: AttemptStatus, started: bool, finished: bool,
                     stopCause: string, reason: string): AttemptRecord
  {
    BareAttempt(cfg.runID, cfg.nodeID, id, status, started, finished, stopCause, reason)
  }

  function RunReadsCanceled(s: System, a: Answer): bool {
    !a.fault && s.run.status == RunCanceled
  }

  const REQUESTED := "cancellation_requested"

  function EffectiveCancellationReason(s: System, a: Answer): string {
    if !a.fault && s.run.failureReason != "" && s.run.failureReason != REQUESTED
    then s.run.failureReason
    else REQUESTED
  }

  /** failNode, cancelNode and the terminal writes end the node: finished, no handle. */
  function Terminal(node: NodeRecord, status: NodeStatus, stopCause: string, reason: string): NodeRecord {
    node.(status := status, stopCause := stopCause, failureReason := reason, finished := true, handleJSON := "")
  }

  // ---- the runner ----

  /** Where the classification sends a runner (reconcileBeforeAllocation) or a cancellation
    * drive (driveCancellation). */
  function Dispatch(drive: bool, snapshot: NodeRecord, attempt: Option<AttemptRecord>): Pc {
    match ClassifyReconcile(snapshot, attempt)
    case TerminalRepair => InReconcile(Repair(snapshot, attempt))
    case Reattach => InReconcile(Restore(snapshot.currentAttemptID))
    case ResolveByIdentity =>
      InReconcile(ResolveIdentity(snapshot.currentAttemptID, attempt.Some? && attempt.value.cancelRequested))
    case Fresh => if drive then DriveDefault(snapshot, attempt) else InBind(Alloc)
    case ResumePreFence => if drive then DriveDefault(snapshot, attempt) else InBind(ResumeReady(snapshot.currentAttemptID))
  }

  function DriveDefault(snapshot: NodeRecord, attempt: Option<AttemptRecord>): Pc {
    var id := FirstNonEmpty(snapshot.currentAttemptID, if attempt.Some? then attempt.value.attemptID else "");
    if id == "" then InCancel(MarkReason) else InCancel(CancelReason(id))
  }

  /** tryRestoreHandle's test on the node it re-reads. */
  predicate Restorable(node: NodeRecord) {
    node.handleJSON != "" && (node.status.Running? || node.status.Starting? || node.status.Releasing?)
  }

  function StepReconcile(cfg: Config, s: System, pc: ReconcilePc, a: Answer): System {
    match pc
    case Entry(drive) =>
      if a.fault then Go(s, Done(ReturnedError))
      else if drive && s.cell.node.status.IsTerminal() then Go(s, Done(ReturnedOk))
      else Go(s, InReconcile(ReadAttempt(drive, s.cell.node)))
    case ReadAttempt(drive, snapshot) =>
      if a.fault then Go(s, Done(ReturnedError))
      else Go(s, Dispatch(drive, snapshot, GetCurrentAttempt(s.cell)))
    case Repair(snapshot, attempt) =>
      if !snapshot.status.IsTerminal() && attempt.Some? && attempt.value.status.IsTerminal() then
        var repaired := NodeStatusFromAttempt(attempt.value);
        var next := Done(if repaired == Failed then ReturnedError else ReturnedOk);
        if a.fault || s.cell.node.status.IsTerminal() then Go(s, next)
        else
          Go(WithNode(s, s.cell.node.(status := repaired, stopCause := attempt.value.stopCause,
                                      failureReason := attempt.value.failureReason,
                                      finished := attempt.value.finished, handleJSON := "")), next)
      else Go(s, Done(if snapshot.status == Failed then ReturnedError else ReturnedOk))
    case Restore(fallbackID) =>
      if !a.fault && Restorable(s.cell.node) && a.ok
      then Go(s, InObserve(Wait(s.cell.node.currentAttemptID)))
      else Go(s, InReconcile(Unresolved(fallbackID)))
    case ResolveIdentity(id, cancelRequested) =>
      if a.fault then Go(s, Done(ReturnedError))
      else if a.outcome.Found? then Go(s, InReconcile(AttachPersist(id, cancelRequested)))
      else Go(s, InReconcile(Unresolved(id)))
    case AttachPersist(id, cancelRequested) =>
      (match a.persist
       case NotPersistable => Go(s, InReconcile(AttachCancel(id, cancelRequested)))
       case PersistFailed => Go(s, InReconcile(Unresolved(id)))
       case Durable(handleJSON) =>
         if a.fault || id !in s.cell.attempts then Go(s, InReconcile(Unresolved(id)))
         else Go(s.(cell := PersistHandleCell(s.cell, id, handleJSON)), InReconcile(AttachCancel(id, cancelRequested))))
    case AttachCancel(id, cancelRequested) =>
      if (cancelRequested || RunReadsCanceled(s, a)) && !a.ok then Go(s, InReconcile(Unresolved(id)))
      else Go(s, InObserve(Wait(id)))
    case Unresolved(id) =>
      Go(s, Done(ReturnedUnresolved)).(unresolved := true)
  }

  function StepBind(cfg: Config, s: System, pc: BindPc, a: Answer): System {
    match pc
    case Alloc =>
      if a.fault || !MayAllocate(s.cell) then Go(s, Done(ReturnedError))
      else
        var c := AllocateCell(s.cell, cfg.runID, cfg.nodeID);
        Go(s.(cell := c), InBind(Bind(c.node.currentAttemptID)))
    case ResumeReady(id) => StatusWrite(s, a, Ready, InBind(Bind(id)))
    case Bind(id) =>
      if cfg.bindings == 0 then Go(s, InBind(Place(id)))
      else if !a.ok then Go(s, InFail(FailUpsert(id, "input_env_key_collision", false)))
      else Go(s, InBind(SetBuilding(id)))
    case SetBuilding(id) => StatusWrite(s, a, BuildingBindings, InBind(SetResolving(id)))
    case SetResolving(id) => StatusWrite(s, a, ResolvingInputs, InBind(ResolveInputs(id, 0)))
    case ResolveInputs(id, k) =>
      if k < cfg.bindings && a.ok then Go(s, InBind(ResolveInputs(id, k + 1)))
      else if k < cfg.bindings then Go(s, InFail(FailUpsert(id, a.reason, false))) else Go(s, InBind(Place(id)))
    case Place(id) =>
      if !a.ok then Go(s, InFail(FailUpsert(id, "placement_conflict", false))) else Go(s, InRelease(SetStarting(id)))
  }

  /** openedOpportunityCount: attempt records that carry a fence. */
  function OpenedOpportunities(c: Cell): set<string> {
    set id | id in c.attempts && c.attempts[id].fenceOpened
  }

  function StepRelease(cfg: Config, s: System, pc: ReleasePc, a: Answer): System {
    match pc
    case SetStarting(id) => StatusWrite(s, a, Starting, InRelease(Prepare(id)))
    case Prepare(id) =>
      if !a.ok then Go(s, InFail(FailUpsert(id, "backend_prepare_error", true))) else Go(s, InRelease(SetReleasing(id)))
    case SetReleasing(id) => StatusWrite(s, a, Releasing, InRelease(Budget(id)))
    case Budget(id) =>
      if a.fault then Go(s, Done(ReturnedError))
      else if |OpenedOpportunities(s.cell)| >= EffectiveMaxAttempts(cfg.maxAttempts) then Go(s, InFail(BudgetUpsert(id)))
      else Go(s, InRelease(Open(id)))
    case Open(id) =>
      if a.fault || !MayOpen(s.cell, id) then Go(s, InFail(FailUpsert(id, "submission_fence_persist_error", true)))
      else Go(s.(cell := OpenCell(s.cell, id),
                 history := s.history.(fenced := s.history.fenced + [id])), InSubmit(Start(id)))
  }

  function StepSubmit(cfg: Config, s: System, pc: SubmitPc, a: Answer): System {
    match pc
    case Start(id) =>
      var issued := s.(history := s.history.(started := s.history.started + [id]));
      if a.ok then Go(issued, InSubmit(PersistHandle(id))) else Go(issued, InReconcile(Unresolved(id)))
    case PersistHandle(id) =>
      // The result of persistHandle is ignored here.
      if a.persist.Durable? && id in s.cell.attempts
      then Go(s.(cell := PersistHandleCell(s.cell, id, a.persist.handleJSON)), InSubmit(MarkStarted(id)))
      else Go(s, InSubmit(MarkStarted(id)))
    case MarkStarted(id) =>
      if a.fault then Go(s, InSubmit(SetRunning(id)))
      else Go(WithAttempt(s, NewRecord(cfg, id, AttemptStatus.Started, true, false, "", "")), InSubmit(SetRunning(id)))
    case SetRunning(id) => StatusWrite(s, a, Running, InObserve(Wait(id)))
  }

  function StepObserve(cfg: Config, s: System, pc: ObservePc, a: Answer): System {
    match pc
    case Wait(id) =>
      (match a.wait
       case WaitError =>
         if a.contextDone || RunReadsCanceled(s, a) then Go(s, InCancel(CancelReason(id))) else Go(s, InReconcile(Unresolved(id)))
       case WaitFailed(stopCause, reason) =>
         Go(s, InObserve(FinishErrored(id, FirstNonEmpty(stopCause, "failed"),
                                       FirstNonEmpty(TrimSpace(reason), "node_execution_failed"))))
       case WaitSucceeded(stopCause, reason) =>
         Go(s, InFinalize(Register(id, 0, FirstNonEmpty(stopCause, "finished"), reason))))
    case FinishErrored(id, stopCause, reason) =>
      var next := InObserve(NoRetry(id, stopCause, reason));
      if a.fault then Go(s, next)
      else Go(WithAttempt(s, NewRecord(cfg, id, Errored, true, true, stopCause, reason)), next)
    case NoRetry(id, stopCause, reason) =>
      if RunReadsCanceled(s, a) then Go(s, InCancel(CancelReason(id)))
      else Go(s, InFail(TerminalizeFailed(id, stopCause, reason)))
  }

  function StepFinalizeNode(cfg: Config, s: System, pc: FinalizePc, a: Answer): System {
    match pc
    case Register(id, k, stopCause, reason) =>
      // At k == 0 the output manifest is collected first, which can fail on its own.
      if k >= |cfg.outputs| then Go(s, InFinalize(Notify(id, stopCause, reason)))
      else if !a.ok && (k == 0 || cfg.outputs[k] != "") then Go(s, InFinalize(Defer(id)))
      else if cfg.outputs[k] == "" then Go(s, InFinalize(Register(id, k + 1, stopCause, reason)))
      else Go(s.(history := s.history.(registered := s.history.registered + {(id, cfg.outputs[k])})),
              InFinalize(Register(id, k + 1, stopCause, reason)))
    case Notify(id, stopCause, reason) =>
      if !a.ok then Go(s, InFinalize(Defer(id)))
      else Go(s.(history := s.history.(notified := s.history.notified + {id})), InFinalize(Complete(id, stopCause, reason)))
    case Complete(id, stopCause, reason) =>
      var next := InFinalize(SetSucceeded(id, stopCause, reason));
      if a.fault then Go(s, next)
      else Go(WithAttempt(s, NewRecord(cfg, id, Completed, true, true, stopCause, reason)), next)
    case SetSucceeded(id, stopCause, reason) =>
      if a.fault then Go(s, Done(ReturnedError))
      else Go(WithNode(s, Terminal(s.cell.node, Succeeded, stopCause, reason)), Done(ReturnedOk))
    case Defer(id) =>
      // Recorded or not, the attempt stays open for another finalization.
      var deferred := Go(s, Done(ReturnedUnresolved)).(unresolved := true);
      if a.fault || id !in s.cell.attempts then deferred
      else deferred.(cell := MutateCell(s.cell, id, CompleteProcess))
  }

  function StepFail(cfg: Config, s: System, pc: FailPc, a: Answer): System {
    match pc
    case FailUpsert(id, reason, retryable) =>
      var next := InFail(FailCheck(id, reason, retryable));
      if a.fault then Go(s, next)
      else Go(WithAttempt(s, NewRecord(cfg, id, Errored, true, true, "failed", reason)), next)
    case FailCheck(id, reason, retryable) =>
      if RunReadsCanceled(s, a) then Go(s, InCancel(CancelReason(id))) else Go(s, InFail(FailBudget(id, reason, retryable)))
    case FailBudget(id, reason, retryable) =>
      if retryable && !a.fault && s.cell.node.realizationCount < cfg.ceiling
      then Go(s, InRetry(FailCurrent(id)))
      else Go(s, InFail(TerminalizeFailed(id, "failed", reason)))
    case BudgetUpsert(id) =>
      var next := InFail(TerminalizeFailed(id, "failed", "attempt_budget_exhausted"));
      if a.fault then Go(s, next)
      else Go(WithAttempt(s, NewRecord(cfg, id, Errored, true, true, "failed", "attempt_budget_exhausted")), next)
    case TerminalizeFailed(id, stopCause, reason) =>
      if a.fault then Go(s, Done(ReturnedError))
      else Go(WithNode(s, Terminal(s.cell.node, Failed, stopCause, reason)), Done(ReturnedError))
  }

  /** The re-realization arm of failNode. */
  function StepRetry(cfg: Config, s: System, pc: RetryPc, a: Answer): System {
    match pc
    case FailCurrent(id) =>
      var cur := GetCurrentAttempt(s.cell);
      if !a.fault && cur.Some? && cur.value.attemptID == id && !cur.value.fenceOpened
      then Go(s, InRetry(FailMark(id, cur.value)))
      else Go(s, InRetry(Reset(id)))
    case FailMark(id, current) =>
      if a.fault then Go(s, InRetry(Reset(id)))
      else Go(WithAttempt(s, current.(reattemptable := true)), InRetry(Reset(id)))
    case Reset(id) =>
      if a.fault then Go(s, InReconcile(Entry(false)))
      else Go(WithNode(s, s.cell.node.(status := Pending, stopCause := "", failureReason := "", finished := false,
                                       currentAttemptID := "", handleJSON := "")), InReconcile(Entry(false)))
  }

  function StepCancel(cfg: Config, s: System, pc: CancelPc, a: Answer): System {
    match pc
    case CancelReason(id) => Go(s, InCancel(CancelUpsert(id, EffectiveCancellationReason(s, a))))
    case CancelUpsert(id, reason) =>
      if a.fault then Go(s, InCancel(CancelSet(id, reason)))
      else Go(WithAttempt(s, NewRecord(cfg, id, Errored, false, true, "canceled", reason)), InCancel(CancelSet(id, reason)))
    case CancelSet(id, reason) =>
      if a.fault then Go(s, Done(ReturnedError))
      else Go(WithNode(s, Terminal(s.cell.node, Canceled, "canceled", reason)), Done(ReturnedOk))
    case MarkReason => Go(s, InCancel(MarkCanceled(EffectiveCancellationReason(s, a))))
    case MarkCanceled(reason) =>
      if a.fault || s.cell.node.status.IsTerminal() then Go(s, Done(ReturnedOk))
      else Go(WithNode(s, s.cell.node.(status := Canceled, stopCause := "canceled", failureReason := reason,
                                       finished := true)), Done(ReturnedOk))
  }

  function StepRunner(cfg: Config, s: System, a: Answer): System {
    match s.pc
    case InReconcile(pc) => StepReconcile(cfg, s, pc, a)
    case InBind(pc) => StepBind(cfg, s, pc, a)
    case InRelease(pc) => StepRelease(cfg, s, pc, a)
    case InSubmit(pc) => StepSubmit(cfg, s, pc, a)
    case InObserve(pc) => StepObserve(cfg, s, pc, a)
    case InFinalize(pc) => StepFinalizeNode(cfg, s, pc, a)
    case InFail(pc) => StepFail(cfg, s, pc, a)
    case InRetry(pc) => StepRetry(cfg, s, pc, a)
    case InCancel(pc) => StepCancel(cfg, s, pc, a)
    case _ => s
  }

  // ---- the run ----

  function WithRunStatus(s: System, status: RunStatus): System {
    s.(run := s.run.(status := status))
  }

  function StepRun(cfg: Config, s: System, e: Event): System {
    match e
    case Crash => s.(exec := Down, pc := Off, unresolved := false, intents := {})
    case Boot => if s.exec.Down? then s.(exec := Booted) else s
    case Admit(fault) =>
      if !s.exec.Submitted? then s
      else if fault then s.(exec := Idle)
      else WithRunStatus(s, RunAdmitted).(exec := Launched)
    case Recover(fault) =>
      if !s.exec.Booted? then s
      else if fault then s.(exec := Idle)
      else if !s.run.status.IsTerminal() then s.(exec := Launched)
      else if s.cell.node.status.IsTerminal() then s.(exec := Idle)
      else s.(exec := Driving, pc := InReconcile(Entry(true)))
    case GetRunFails => if s.exec.Launched? then s.(exec := Idle) else s
    case GraphStart(ok, fault) =>
      if !s.exec.Launched? then s
      else if !ok then s.(exec := FinalizeRead(false))
      else (if fault then s else WithRunStatus(s, RunRunning)).(exec := Graph)
    case StartRunner =>
      if s.exec.Graph? && s.pc.Off? then s.(pc := InReconcile(Entry(false))) else s
    case GraphEnd(ok) =>
      if !s.exec.Graph? then s
      else if ok && s.pc == Done(ReturnedOk) then s.(exec := FinalizeRead(true))
      else if s.unresolved then s.(exec := Idle)
      else s.(exec := Skipping)
    case SkipPending(fault) =>
      if !s.exec.Skipping? then s
      else if fault || s.cell.node.status != Pending then s.(exec := FinalizeRead(false))
      else WithNode(s, s.cell.node.(status := Skipped, stopCause := "failed", failureReason := "dependency_failed"))
           .(exec := FinalizeRead(false))
    case Finalize(_, _, _, _) => StepFinalizeRun(cfg, s, e)
    case DriveEnd => if s.exec.Driving? && s.pc.Done? then s.(exec := Idle) else s
    case _ => s
  }

  /** finalizeRun, one transaction at a time; `others` are the other nodes it lists and
    * `reason` the failure reason it puts together from them. */
  function StepFinalizeRun(cfg: Config, s: System, e: Event): System
    requires e.Finalize?
  {
    match s.exec
    case FinalizeRead(succeeded) =>
      if e.fault then s.(exec := FinalizeError)
      else s.(exec := FinalizeWrite(
                RunFold.Verdict(s.run.status == RunCanceled, multiset([s.cell.node.status] + e.others), succeeded)))
    case FinalizeWrite(verdict) =>
      if e.fault then s.(exec := FinalizeError)
      else s.(run := s.run.(status := verdict, finished := true,
                            stopCause := RunFold.StopCauseOf(verdict), failureReason := e.reason),
              exec := FinalizeHandoff(verdict))
    case FinalizeHandoff(verdict) =>
      if verdict != RunSucceeded || e.handoffOk then s.(exec := Idle)
      else if e.fault then s.(exec := FinalizeError)
      else s.(run := s.run.(status := RunFailed, stopCause := "failed", failureReason := e.reason), exec := Idle)
    case FinalizeError =>
      if e.fault || s.run.status != RunRunning then s.(exec := Idle)
      else s.(run := s.run.(status := RunFailed, stopCause := "failed", failureReason := "finalize_error"),
              exec := Idle)
    case _ => s
  }

  /** One transaction of some Cancel call. Calls may overlap, repeat and stop half-way. */
  function StepCancelCall(cfg: Config, s: System, e: Event): System {
    if s.exec.Down? then s
    else match e
      case CancelRun(reason, fault) =>
        if fault || s.run.status.IsTerminal() then s
        else s.(run := s.run.(status := RunCanceled, stopCause := "canceled",
                              failureReason := FirstNonEmpty(reason, REQUESTED)))
      case CancelNode(reason, fault) =>
        if fault || s.cell.node.status.IsTerminal() then s
        else if s.cell.node.status.Running? then
          if s.cell.node.currentAttemptID == "" then s
          else s.(intents := s.intents + {s.cell.node.currentAttemptID})
        else WithNode(s, s.cell.node.(status := Canceled, stopCause := "canceled",
                                      failureReason := FirstNonEmpty(reason, REQUESTED), finished := true))
      case CancelIntent(id, reason, fault) =>
        if fault || id !in s.intents || id !in s.cell.attempts then s
        else s.(cell := MutateCell(s.cell, id, RequestCancellation(FirstNonEmpty(reason, REQUESTED))))
      case _ => s
  }

  function Next(cfg: Config, s: System, e: Event): System {
    match e
    case Step(a) => StepRunner(cfg, s, a)
    case CancelRun(_, _) => StepCancelCall(cfg, s, e)
    case CancelNode(_, _) => StepCancelCall(cfg, s, e)
    case CancelIntent(_, _, _) => StepCancelCall(cfg, s, e)
    case _ => StepRun(cfg, s, e)
  }

  /** What CreateRun leaves behind. */
  function Init(cfg: Config): System {
    System(RunRecord(cfg.runID, RunAccepted, 0, false, "", ""),
           Cell(FreshNode(cfg.runID, cfg.nodeID), map[]),
           Submitted, Off, false, {}, History([], [], {}, {}))
  }

  /** Running a schedule from a state. */
  function Execute(cfg: Config, s: System, events: seq<Event>): System
    decreases |events|
  {
    if events == [] then s
    else
      var last := |events| - 1;
      Next(cfg, Execute(cfg, s, events[..last]), events[last])
  }

  predicate AdmissibleRun(cfg: Config, s: System, events: seq<Event>)
    decreases |events|
  {
    events == [] ||
    var last := |events| - 1;
    AdmissibleRun(cfg, s, events[..last]) && Admissible(cfg, Execute(cfg, s, events[..last]), events[last])
  }

  /** The states some admissible schedule leads to. */
  ghost predicate Reachable(cfg: Config, s: System) {
    exists events: seq<Event> ::
      AdmissibleRun(cfg, Init(cfg), events) && Execute(cfg, Init(cfg), events) == s
  }

  lemma OneMore(cfg: Config, s: System, e: Event)
    requires Reachable(cfg, s) && Admissible(cfg, s, e)
    ensures Reachable(cfg, Next(cfg, s, e))
  {
    hide Next, Admissible, Init;
    var events :| AdmissibleRun(cfg, Init(cfg), events) && Execute(cfg, Init(cfg), events) == s;
    var more := events + [e];
    assert more[..|more| - 1] == events;
    assert AdmissibleRun(cfg, Init(cfg), more) && Execute(cfg, Init(cfg), more) == Next(cfg, s, e);
  }
}
