/** What every reachable state of the attempt protocol keeps, for every schedule of runner
  * steps, crashes, restarts, Cancel calls, store failures and backend answers, as long as
  * started handles become durable.
  */
module ProtocolSafety {
  import opened Spec
  import opened Store
  import opened Reconcile
  import opened AttemptState
  import opened Protocol

  function RoleOf(pc: Pc): Role {
    match pc
    case Off => Free
    case Done(_) => Free
    case InReconcile(p) =>
      (match p
       case Entry(_) => Free
       case ReadAttempt(_, snapshot) => Reading(snapshot)
       case Repair(_, _) => Free
       case Restore(id) => Following(id)
       case ResolveIdentity(id, _) => Issued(id)
       case AttachPersist(id, _) => Issued(id)
       case AttachCancel(id, _) => Following(id)
       case Unresolved(id) => Following(id))
    case InBind(p) => if p.Alloc? then Allocating else Holding(p.id, false, false)
    case InRelease(p) => Holding(p.id, p.Budget? || p.Open?, false)
    case InSubmit(p) =>
      (match p
       case Start(id) => Opening(id)
       case PersistHandle(id) => Issued(id)
       case MarkStarted(id) => Recorded(id)
       case SetRunning(id) => Detached(id))
    case InObserve(p) => Following(p.id)
    case InFinalize(p) => Following(p.id)
    case InFail(p) => if p.TerminalizeFailed? then Ending(p.id) else Holding(p.id, false, false)
    case InRetry(p) => if p.FailMark? then Marking(p.id, p.current) else Holding(p.id, false, true)
    case InCancel(p) => if p.MarkReason? || p.MarkCanceled? then Unclaimed else Ending(p.id)
  }

  predicate Inv(cfg: Config, s: System) {
    Safe(Cap(cfg), s.cell, s.history, RoleOf(s.pc)) && !(s.pc.InFail? && s.pc.fail.BudgetUpsert?)
  }

  lemma ReconcileKeepsInv(cfg: Config, s: System, pc: ReconcilePc, a: Answer)
    requires Inv(cfg, s) && s.pc == InReconcile(pc)
    ensures Inv(cfg, StepReconcile(cfg, s, pc, a))
  {
    hide Safe, ClassifyReconcile;
    var cap, c, h := Cap(cfg), s.cell, s.history;
    Fallback(cap, c, h, RoleOf(s.pc), Free);
    match pc
    case Entry(drive) => ReadNode(cap, c, h);
    case ReadAttempt(drive, snap) => Classified(cap, c, h, snap);
    case Repair(snap, attempt) =>
      if attempt.Some? && attempt.value.status.IsTerminal() {
        NodeEnded(cap, c, h, Free,
                  c.node.(status := NodeStatusFromAttempt(attempt.value), stopCause := attempt.value.stopCause,
                          failureReason := attempt.value.failureReason,
                          finished := attempt.value.finished, handleJSON := ""));
      }
    case Restore(id) => CurrentIsFenced(cap, c, h, id);
    case ResolveIdentity(id, cancelRequested) => Fallback(cap, c, h, Issued(id), Following(id));
    case AttachPersist(id, cancelRequested) =>
      Fallback(cap, c, h, Issued(id), Following(id));
      if a.persist.Durable? && id in c.attempts {
        HandleAttached(cap, c, h, id, a.persist.handleJSON);
      }
    case AttachCancel(id, cancelRequested) =>
    case Unresolved(id) =>
  }

  lemma CurrentIsFenced(cap: nat, c: Cell, h: History, id: string)
    requires Safe(cap, c, h, Following(id))
    ensures c.node.currentAttemptID == id
  {
  }

  lemma BindKeepsInv(cfg: Config, s: System, pc: BindPc, a: Answer)
    requires Inv(cfg, s) && s.pc == InBind(pc)
    ensures Inv(cfg, StepBind(cfg, s, pc, a))
  {
    hide Safe;
    var cap, c, h := Cap(cfg), s.cell, s.history;
    Fallback(cap, c, h, RoleOf(s.pc), Free);
    match pc
    case Alloc => Allocated(cap, c, h, cfg.runID, cfg.nodeID);
    case ResumeReady(id) => WriteStatus(cap, c, h, id, false, Ready);
    case Bind(id) =>
    case SetBuilding(id) => WriteStatus(cap, c, h, id, false, BuildingBindings);
    case SetResolving(id) => WriteStatus(cap, c, h, id, false, ResolvingInputs);
    case ResolveInputs(id, _) =>
    case Place(id) =>
  }

  lemma ReleaseKeepsInv(cfg: Config, s: System, pc: ReleasePc, a: Answer)
    requires Inv(cfg, s) && s.pc == InRelease(pc)
    ensures Inv(cfg, StepRelease(cfg, s, pc, a))
  {
    hide Safe;
    var cap, c, h := Cap(cfg), s.cell, s.history;
    Fallback(cap, c, h, RoleOf(s.pc), Free);
    match pc
    case SetStarting(id) => WriteStatus(cap, c, h, id, false, Starting);
    case Prepare(id) =>
    case SetReleasing(id) => WriteStatus(cap, c, h, id, false, Releasing);
    case Budget(id) => NoFenceNoOpportunity(cap, c, h, id, true);
    case Open(id) =>
      Opened(cap, c, h, id);
      Fallback(cap, c, h, RoleOf(s.pc), Holding(id, false, false));
  }

  lemma SubmitKeepsInv(cfg: Config, s: System, pc: SubmitPc, a: Answer)
    requires Inv(cfg, s) && s.pc == InSubmit(pc)
    requires cfg.handleDurable && Admissible(cfg, s, Step(a))
    ensures Inv(cfg, StepSubmit(cfg, s, pc, a))
  {
    hide Safe;
    var cap, c, h := Cap(cfg), s.cell, s.history;
    Fallback(cap, c, h, RoleOf(s.pc), Free);
    match pc
    case Start(id) =>
      StartIssued(cap, c, h, id);
      Fallback(cap, c, h.(started := h.started + [id]), Issued(id), Following(id));
    case PersistHandle(id) =>
      HandleStored(cap, c, h, id, a.persist.handleJSON);
    case MarkStarted(id) =>
      StartedWritten(cap, c, h, id, NewRecord(cfg, id, AttemptStatus.Started, true, false, "", ""));
    case SetRunning(id) => RunningWritten(cap, c, h, id);
  }

  lemma ObserveKeepsInv(cfg: Config, s: System, pc: ObservePc, a: Answer)
    requires Inv(cfg, s) && s.pc == InObserve(pc)
    ensures Inv(cfg, StepObserve(cfg, s, pc, a))
  {
    hide Safe;
    var cap, c, h := Cap(cfg), s.cell, s.history;
    Fallback(cap, c, h, RoleOf(s.pc), Ending(pc.id));
    match pc
    case Wait(id) =>
    case FinishErrored(id, stopCause, reason) =>
      AttemptEnded(cap, c, h, id, NewRecord(cfg, id, Errored, true, true, stopCause, reason));
    case NoRetry(id, stopCause, reason) =>
  }

  lemma FinalizeKeepsInv(cfg: Config, s: System, pc: FinalizePc, a: Answer)
    requires Inv(cfg, s) && s.pc == InFinalize(pc)
    ensures Inv(cfg, StepFinalizeNode(cfg, s, pc, a))
  {
    hide Safe;
    var cap, c, h, id := Cap(cfg), s.cell, s.history, pc.id;
    Fallback(cap, c, h, Following(id), Free);
    match pc
    case Register(_, k, stopCause, reason) =>
      if k < |cfg.outputs| {
        ReportedOutside(cap, c, h, h.(registered := h.registered + {(id, cfg.outputs[k])}), Following(id));
      }
    case Notify(_, stopCause, reason) =>
      ReportedOutside(cap, c, h, h.(notified := h.notified + {id}), Following(id));
    case Complete(_, stopCause, reason) =>
      Fallback(cap, c, h, Following(id), Ending(id));
      AttemptEnded(cap, c, h, id, NewRecord(cfg, id, Completed, true, true, stopCause, reason));
    case SetSucceeded(_, stopCause, reason) =>
      NodeEnded(cap, c, h, Following(id), Terminal(c.node, Succeeded, stopCause, reason));
    case Defer(_) =>
      if id in c.attempts {
        FactRecorded(cap, c, h, Free, id, CompleteProcess);
      }
  }

  lemma ReportedOutside(cap: nat, c: Cell, h: History, h': History, role: Role)
    requires Safe(cap, c, h, role)
    requires h'.started == h.started && h'.fenced == h.fenced
    ensures Safe(cap, c, h', role)
  {
  }

  lemma FailKeepsInv(cfg: Config, s: System, pc: FailPc, a: Answer)
    requires Inv(cfg, s) && s.pc == InFail(pc)
    ensures Inv(cfg, StepFail(cfg, s, pc, a))
  {
    hide Safe;
    var cap, c, h := Cap(cfg), s.cell, s.history;
    Fallback(cap, c, h, RoleOf(s.pc), Free);
    match pc
    case FailUpsert(id, reason, retryable) =>
      EndedBeforeFence(cap, c, h, id, false, NewRecord(cfg, id, Errored, true, true, "failed", reason));
    case FailCheck(id, reason, retryable) => Fallback(cap, c, h, RoleOf(s.pc), Ending(id));
    case FailBudget(id, reason, retryable) =>
      Fallback(cap, c, h, RoleOf(s.pc), Ending(id));
      if c.node.realizationCount < cfg.ceiling {
        MayRetry(cap, c, h, id, false);
      }
    case BudgetUpsert(id) =>
    case TerminalizeFailed(id, stopCause, reason) =>
      NodeEnded(cap, c, h, Ending(id), Terminal(c.node, Failed, stopCause, reason));
  }

  lemma RetryKeepsInv(cfg: Config, s: System, pc: RetryPc, a: Answer)
    requires Inv(cfg, s) && s.pc == InRetry(pc)
    ensures Inv(cfg, StepRetry(cfg, s, pc, a))
  {
    hide Safe;
    var cap, c, h := Cap(cfg), s.cell, s.history;
    Fallback(cap, c, h, RoleOf(s.pc), Free);
    match pc
    case FailCurrent(id) => ReadBack(cap, c, h, id);
    case FailMark(id, current) =>
      Fallback(cap, c, h, RoleOf(s.pc), Holding(id, false, true));
      Marked(cap, c, h, id, current);
    case Reset(id) =>
      ResetNode(cap, c, h, id, c.node.(status := Pending, stopCause := "", failureReason := "", finished := false,
                                       currentAttemptID := "", handleJSON := ""));
  }

  lemma CancelKeepsInv(cfg: Config, s: System, pc: CancelPc, a: Answer)
    requires Inv(cfg, s) && s.pc == InCancel(pc)
    ensures Inv(cfg, StepCancel(cfg, s, pc, a))
  {
    hide Safe;
    var cap, c, h := Cap(cfg), s.cell, s.history;
    Fallback(cap, c, h, RoleOf(s.pc), Free);
    match pc
    case CancelReason(id) =>
    case CancelUpsert(id, reason) =>
      AttemptEnded(cap, c, h, id, NewRecord(cfg, id, Errored, false, true, "canceled", reason));
    case CancelSet(id, reason) =>
      NodeEnded(cap, c, h, Ending(id), Terminal(c.node, Canceled, "canceled", reason));
    case MarkReason =>
    case MarkCanceled(reason) =>
      NodeEnded(cap, c, h, Unclaimed, c.node.(status := Canceled, stopCause := "canceled", failureReason := reason,
                                              finished := true));
  }

  lemma RunKeepsInv(cfg: Config, s: System, e: Event)
    requires Inv(cfg, s)
    ensures Inv(cfg, StepRun(cfg, s, e))
  {
    hide Safe;
    Fallback(Cap(cfg), s.cell, s.history, RoleOf(s.pc), Free);
    if e.SkipPending? {
      NodeEndedConcurrently(Cap(cfg), s.cell, s.history, RoleOf(s.pc),
        s.cell.node.(status := Skipped, stopCause := "failed", failureReason := "dependency_failed"));
    }
  }

  lemma CancelCallKeepsInv(cfg: Config, s: System, e: Event)
    requires Inv(cfg, s)
    ensures Inv(cfg, StepCancelCall(cfg, s, e))
  {
    hide Safe;
    var cap, c, h, role := Cap(cfg), s.cell, s.history, RoleOf(s.pc);
    if e.CancelNode? {
      NodeEndedConcurrently(cap, c, h, role,
        c.node.(status := Canceled, stopCause := "canceled",
                failureReason := FirstNonEmpty(e.reason, REQUESTED), finished := true));
    } else if e.CancelIntent? && e.id in c.attempts {
      FactRecorded(cap, c, h, role, e.id, RequestCancellation(FirstNonEmpty(e.reason, REQUESTED)));
    }
  }

  lemma NextKeepsInv(cfg: Config, s: System, e: Event)
    requires Inv(cfg, s) && cfg.handleDurable && Admissible(cfg, s, e)
    ensures Inv(cfg, Next(cfg, s, e))
  {
    hide Safe, StepReconcile, StepBind, StepRelease, StepSubmit, StepObserve, StepFinalizeNode, StepFail, StepRetry,
      StepCancel, StepRun, StepCancelCall;
    match e
    case Step(a) =>
      match s.pc {
        case InReconcile(pc) => ReconcileKeepsInv(cfg, s, pc, a);
        case InBind(pc) => BindKeepsInv(cfg, s, pc, a);
        case InRelease(pc) => ReleaseKeepsInv(cfg, s, pc, a);
        case InSubmit(pc) => SubmitKeepsInv(cfg, s, pc, a);
        case InObserve(pc) => ObserveKeepsInv(cfg, s, pc, a);
        case InFinalize(pc) => FinalizeKeepsInv(cfg, s, pc, a);
        case InFail(pc) => FailKeepsInv(cfg, s, pc, a);
        case InRetry(pc) => RetryKeepsInv(cfg, s, pc, a);
        case InCancel(pc) => CancelKeepsInv(cfg, s, pc, a);
        case _ =>
      }
    case _ =>
      RunKeepsInv(cfg, s, e);
      CancelCallKeepsInv(cfg, s, e);
  }

  lemma {:induction false} EveryRunKeepsInv(cfg: Config, events: seq<Event>)
    requires cfg.handleDurable && AdmissibleRun(cfg, Init(cfg), events)
    ensures Inv(cfg, Execute(cfg, Init(cfg), events))
    decreases |events|
  {
    hide Next, Admissible;
    if events != [] {
      var last := |events| - 1;
      EveryRunKeepsInv(cfg, events[..last]);
      NextKeepsInv(cfg, Execute(cfg, Init(cfg), events[..last]), events[last]);
    }
  }

  lemma ReachableInv(cfg: Config, s: System)
    requires cfg.handleDurable && Reachable(cfg, s)
    ensures Inv(cfg, s)
  {
    hide Inv, Init;
    var events :| AdmissibleRun(cfg, Init(cfg), events) && Execute(cfg, Init(cfg), events) == s;
    EveryRunKeepsInv(cfg, events);
  }

  // ---- main results ----

  /** StartNode is issued at most once for a node, over all its attempts and restarts. */
  lemma SubmittedAtMostOnce(cfg: Config, s: System)
    requires cfg.handleDurable && Reachable(cfg, s)
    ensures |s.history.started| <= 1
  {
    ReachableInv(cfg, s);
  }

  /** The attempt a fence was opened for, and so the one StartNode was issued for, stays the
    * current attempt, and the durable records alone keep recovery from submitting again:
    * the classifier answers neither Fresh nor ResumePreFence. */
  lemma SubmissionStaysOnRecord(cfg: Config, s: System, id: string)
    requires cfg.handleDurable && Reachable(cfg, s)
    requires id in s.history.fenced || id in s.history.started
    ensures s.cell.node.currentAttemptID == id && id in s.cell.attempts
    ensures !MaySubmit(ClassifyReconcile(s.cell.node, GetCurrentAttempt(s.cell)))
    ensures var n, a := s.cell.node, s.cell.attempts[id];
            a.status.IsTerminal() || n.status.IsTerminal() || a.fenceOpened || n.handleJSON != ""
  {
    hide Reachable, Safe, ClassifyReconcile;
    ReachableInv(cfg, s);
    FencedOnRecord(Cap(cfg), s.cell, s.history, RoleOf(s.pc), id);
  }

  /** A fence or a handle on record means the node was released; hence the status filter of
    * tryRestoreHandle accepts every node that classifies as Reattach. */
  lemma RecordedJobIsNeverAbandoned(cfg: Config, s: System)
    requires cfg.handleDurable && Reachable(cfg, s)
    ensures var cur := GetCurrentAttempt(s.cell);
            && ((cur.Some? && cur.value.fenceOpened) || s.cell.node.handleJSON != "" ==> AfterRelease(s.cell.node.status))
            && (ClassifyReconcile(s.cell.node, cur) == Reattach ==> Restorable(s.cell.node))
  {
    ReachableInv(cfg, s);
  }

  /** AttemptCount is the number of fences opened, whatever failed before a fence; the user's
    * opportunity budget is never exceeded, and never found exhausted. */
  lemma OpportunityBudget(cfg: Config, s: System)
    requires cfg.handleDurable && Reachable(cfg, s)
    ensures s.cell.node.attemptCount == |s.history.fenced| <= EffectiveMaxAttempts(cfg.maxAttempts)
    ensures |s.history.started| <= |s.history.fenced|
    ensures !(s.pc.InFail? && s.pc.fail.BudgetUpsert?)
  {
    ReachableInv(cfg, s);
  }
}
