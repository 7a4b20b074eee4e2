/** A Completed attempt has been finalized: outputs registered, success notified. Handles
  * need not be durable and the store need not be reliable for this.
  */
module ProtocolFinalized {
  import opened Spec
  import opened AttemptId
  import opened Store
  import opened Reconcile
  import opened AttemptState
  import opened Protocol
  import opened ProtocolIdentity

  predicate RegisteredUpTo(cfg: Config, registered: set<(string, string)>, id: string, k: nat) {
    forall j | 0 <= j < |cfg.outputs| && j < k && cfg.outputs[j] != "" :: (id, cfg.outputs[j]) in registered
  }

  predicate Finalized(cfg: Config, registered: set<(string, string)>, notified: set<string>, id: string) {
    RegisteredUpTo(cfg, registered, id, |cfg.outputs|) && id in notified
  }

  predicate BackedUp(cfg: Config, c: Cell, h: History) {
    && (forall k | k in c.attempts && c.attempts[k].status.Completed? :: Finalized(cfg, h.registered, h.notified, k))
    && (c.node.status.Succeeded? ==> Finalized(cfg, h.registered, h.notified, c.node.currentAttemptID))
  }

  /** How far finalization has come where the runner stands. */
  predicate Progress(cfg: Config, c: Cell, h: History, pc: Pc) {
    match pc
    case InReconcile(p) =>
      p.Repair? && p.attempt.Some? && p.attempt.value.status.Completed? && !p.snapshot.status.IsTerminal() ==>
        Finalized(cfg, h.registered, h.notified, c.node.currentAttemptID)
    case InFinalize(p) =>
      (match p
       case Register(id, k, _, _) => RegisteredUpTo(cfg, h.registered, id, k)
       case Notify(id, _, _) => RegisteredUpTo(cfg, h.registered, id, |cfg.outputs|)
       case Complete(id, _, _) => Finalized(cfg, h.registered, h.notified, id)
       case SetSucceeded(id, _, _) => Finalized(cfg, h.registered, h.notified, id)
       case Defer(_) => true)
    case InRetry(p) => p.FailMark? && p.current.status.Completed? ==> Finalized(cfg, h.registered, h.notified, p.id)
    case _ => true
  }

  predicate Backed(cfg: Config, s: System) {
    BackedUp(cfg, s.cell, s.history) && Progress(cfg, s.cell, s.history, s.pc)
  }

  lemma ReconcileKeepsBacked(cfg: Config, s: System, pc: ReconcilePc, a: Answer)
    requires Backed(cfg, s) && s.pc == InReconcile(pc)
    ensures Backed(cfg, StepReconcile(cfg, s, pc, a))
  {
    var c, h := s.cell, s.history;
    hide Finalized, Dispatch, RunReadsCanceled;
    match pc
    case ReadAttempt(drive, snapshot) =>
      CurrentIsBacked(cfg, c, h);
      DispatchedBacked(cfg, c, h, drive, snapshot);
      hide BackedUp;
    case Repair(_, attempt) => hide PersistHandleCell;
    case AttachPersist(id, _) =>
      if id in c.attempts && a.persist.Durable? {
        HandleWritten(cfg, c, h, id, a.persist.handleJSON);
      }
      hide BackedUp, PersistHandleCell;
    case _ => hide BackedUp, PersistHandleCell;
  }

  lemma CurrentIsBacked(cfg: Config, c: Cell, h: History)
    requires BackedUp(cfg, c, h)
    ensures var cur := GetCurrentAttempt(c);
            cur.Some? && cur.value.status.Completed? ==>
              Finalized(cfg, h.registered, h.notified, c.node.currentAttemptID)
  {
    hide Finalized;
  }

  lemma DispatchedBacked(cfg: Config, c: Cell, h: History, drive: bool, snapshot: NodeRecord)
    requires var cur := GetCurrentAttempt(c);
             cur.Some? && cur.value.status.Completed? ==>
               Finalized(cfg, h.registered, h.notified, c.node.currentAttemptID)
    ensures Progress(cfg, c, h, Dispatch(drive, snapshot, GetCurrentAttempt(c)))
  {
    hide Finalized, ClassifyReconcile, GetCurrentAttempt;
  }

  lemma HandleWritten(cfg: Config, c: Cell, h: History, id: string, handleJSON: string)
    requires BackedUp(cfg, c, h) && id in c.attempts
    ensures BackedUp(cfg, PersistHandleCell(c, id, handleJSON), h)
    ensures PersistHandleCell(c, id, handleJSON).node.currentAttemptID == c.node.currentAttemptID
  {
    hide Finalized;
  }

  lemma FinalizeKeepsBacked(cfg: Config, s: System, pc: FinalizePc, a: Answer)
    requires Owned(cfg, s) && Backed(cfg, s) && s.pc == InFinalize(pc)
    ensures Backed(cfg, StepFinalizeNode(cfg, s, pc, a))
  {
    var c, h := s.cell, s.history;
    match pc
    case Register(id, k, _, _) =>
      if k < |cfg.outputs| {
        var h' := h.(registered := h.registered + {(id, cfg.outputs[k])});
        MoreReported(cfg, c, h, h');
        NextRegistered(cfg, h.registered, id, k);
      } else {
        AllRegistered(cfg, h.registered, id, k);
      }
      hide BackedUp, Owned, RegisteredUpTo;
    case Notify(id, _, _) =>
      MoreReported(cfg, c, h, h.(notified := h.notified + {id}));
      hide BackedUp, Owned, RegisteredUpTo;
    case Complete(id, stopCause, reason) =>
      CompletedWritten(cfg, c, h, NewRecord(cfg, id, Completed, true, true, stopCause, reason));
      hide BackedUp, Owned, Finalized;
    case SetSucceeded(id, stopCause, reason) =>
      SucceededWritten(cfg, c, h, Terminal(c.node, Succeeded, stopCause, reason));
      hide BackedUp, Records, Finalized;
    case Defer(id) =>
      if id in c.attempts {
        RecordWritten(cfg, c, h, c.node, id, Mutate(c.attempts[id], CompleteProcess));
      }
      hide BackedUp, Owned, Finalized;
  }

  lemma MoreReported(cfg: Config, c: Cell, h: History, h': History)
    requires BackedUp(cfg, c, h) && h.registered <= h'.registered && h.notified <= h'.notified
    ensures BackedUp(cfg, c, h')
  {
  }

  lemma NextRegistered(cfg: Config, registered: set<(string, string)>, id: string, k: nat)
    requires k < |cfg.outputs| && RegisteredUpTo(cfg, registered, id, k)
    ensures RegisteredUpTo(cfg, registered + {(id, cfg.outputs[k])}, id, k + 1)
    ensures cfg.outputs[k] == "" ==> RegisteredUpTo(cfg, registered, id, k + 1)
  {
  }

  lemma AllRegistered(cfg: Config, registered: set<(string, string)>, id: string, k: nat)
    requires RegisteredUpTo(cfg, registered, id, k) && k >= |cfg.outputs|
    ensures RegisteredUpTo(cfg, registered, id, |cfg.outputs|)
  {
  }

  lemma CompletedWritten(cfg: Config, c: Cell, h: History, a: AttemptRecord)
    requires BackedUp(cfg, c, h) && Finalized(cfg, h.registered, h.notified, a.attemptID)
    ensures BackedUp(cfg, UpsertCell(c, a), h)
  {
    hide Finalized;
  }

  lemma SucceededWritten(cfg: Config, c: Cell, h: History, node: NodeRecord)
    requires BackedUp(cfg, c, h) && Finalized(cfg, h.registered, h.notified, node.currentAttemptID)
    ensures BackedUp(cfg, c.(node := node), h)
  {
    hide Finalized;
  }

  lemma FailKeepsBacked(cfg: Config, s: System, pc: FailPc, a: Answer)
    requires Backed(cfg, s) && s.pc == InFail(pc)
    ensures Backed(cfg, StepFail(cfg, s, pc, a))
  {
    var c, h := s.cell, s.history;
    match pc
    case FailUpsert(id, reason, _) =>
      RecordWritten(cfg, c, h, c.node, id, NewRecord(cfg, id, Errored, true, true, "failed", reason));
      hide BackedUp;
    case FailCheck(_, _, _) => hide BackedUp;
    case FailBudget(_, _, _) => hide BackedUp;
    case BudgetUpsert(id) =>
      RecordWritten(cfg, c, h, c.node, id, NewRecord(cfg, id, Errored, true, true, "failed", "attempt_budget_exhausted"));
      hide BackedUp;
    case TerminalizeFailed(_, stopCause, reason) =>
      NodeWritten(cfg, c, h, Terminal(c.node, Failed, stopCause, reason));
      hide BackedUp;
  }

  lemma RetryKeepsBacked(cfg: Config, s: System, pc: RetryPc, a: Answer)
    requires Owned(cfg, s) && Backed(cfg, s) && s.pc == InRetry(pc)
    ensures Backed(cfg, StepRetry(cfg, s, pc, a))
  {
    var c, h := s.cell, s.history;
    match pc
    case FailCurrent(_) =>
      CurrentIsBacked(cfg, c, h);
      hide BackedUp, Records, Finalized, GetCurrentAttempt;
    case FailMark(id, current) =>
      if current.status.Completed? {
        CompletedWritten(cfg, c, h, current.(reattemptable := true));
      } else {
        RecordWritten(cfg, c, h, c.node, id, current.(reattemptable := true));
      }
      hide BackedUp, Records, Finalized;
    case Reset(_) =>
      NodeWritten(cfg, c, h, c.node.(status := Pending, stopCause := "", failureReason := "", finished := false,
                                     currentAttemptID := "", handleJSON := ""));
      hide BackedUp, Records, Finalized;
  }

  lemma CancelKeepsBacked(cfg: Config, s: System, pc: CancelPc, a: Answer)
    requires Backed(cfg, s) && s.pc == InCancel(pc)
    ensures Backed(cfg, StepCancel(cfg, s, pc, a))
  {
    var c, h := s.cell, s.history;
    match pc
    case CancelReason(_) => hide BackedUp;
    case CancelUpsert(id, reason) =>
      RecordWritten(cfg, c, h, c.node, id, NewRecord(cfg, id, Errored, false, true, "canceled", reason));
      hide BackedUp;
    case CancelSet(_, reason) =>
      NodeWritten(cfg, c, h, Terminal(c.node, Canceled, "canceled", reason));
      hide BackedUp;
    case MarkReason => hide BackedUp;
    case MarkCanceled(reason) =>
      NodeWritten(cfg, c, h, c.node.(status := Canceled, stopCause := "canceled", failureReason := reason,
                                     finished := true));
      hide BackedUp;
  }

  lemma NodeWritten(cfg: Config, c: Cell, h: History, node: NodeRecord)
    requires BackedUp(cfg, c, h) && !node.status.Succeeded?
    ensures BackedUp(cfg, c.(node := node), h)
  {
  }

  lemma RecordWritten(cfg: Config, c: Cell, h: History, node: NodeRecord, id: string, a: AttemptRecord)
    requires BackedUp(cfg, c, h)
    requires node.status.Succeeded? ==> node.currentAttemptID == c.node.currentAttemptID && c.node.status.Succeeded?
    requires a.status.Completed? ==> id in c.attempts && c.attempts[id].status.Completed?
    ensures BackedUp(cfg, Cell(node, c.attempts[id := a]), h)
  {
  }

  lemma BindKeepsBacked(cfg: Config, s: System, pc: BindPc, a: Answer)
    requires Backed(cfg, s) && s.pc == InBind(pc)
    ensures Backed(cfg, StepBind(cfg, s, pc, a))
  {
    hide BackedUp, DeterministicAttemptID;
    var c, h := s.cell, s.history;
    match pc
    case Alloc =>
      var id := AllocateID(c, cfg.runID, cfg.nodeID);
      RecordWritten(cfg, c, h, AllocateCell(c, cfg.runID, cfg.nodeID).node, id,
                    BareAttempt(cfg.runID, cfg.nodeID, id, Prepared, true, false, "", ""));
    case ResumeReady(id) => NodeWritten(cfg, c, h, c.node.(status := Ready));
    case Bind(id) =>
    case SetBuilding(id) => NodeWritten(cfg, c, h, c.node.(status := BuildingBindings));
    case SetResolving(id) => NodeWritten(cfg, c, h, c.node.(status := ResolvingInputs));
    case ResolveInputs(id, _) =>
    case Place(id) =>
  }

  lemma ReleaseKeepsBacked(cfg: Config, s: System, pc: ReleasePc, a: Answer)
    requires Backed(cfg, s) && s.pc == InRelease(pc)
    ensures Backed(cfg, StepRelease(cfg, s, pc, a))
  {
    var c, h := s.cell, s.history;
    NodeWritten(cfg, c, h, c.node.(status := Starting));
    NodeWritten(cfg, c, h, c.node.(status := Releasing));
    if pc.Open? && MayOpen(c, pc.id) {
      RecordWritten(cfg, c, h, OpenCell(c, pc.id).node, pc.id, OpenCell(c, pc.id).attempts[pc.id]);
    }
    hide BackedUp, OpenedOpportunities;
  }

  lemma SubmitKeepsBacked(cfg: Config, s: System, pc: SubmitPc, a: Answer)
    requires Backed(cfg, s) && s.pc == InSubmit(pc)
    ensures Backed(cfg, StepSubmit(cfg, s, pc, a))
  {
    var c, h := s.cell, s.history;
    match pc
    case Start(id) =>
      MoreReported(cfg, c, h, h.(started := h.started + [id]));
      hide BackedUp;
    case PersistHandle(id) =>
      if id in c.attempts && a.persist.Durable? {
        HandleWritten(cfg, c, h, id, a.persist.handleJSON);
      }
      hide BackedUp, PersistHandleCell;
    case MarkStarted(id) =>
      RecordWritten(cfg, c, h, c.node, id, NewRecord(cfg, id, AttemptStatus.Started, true, false, "", ""));
      hide BackedUp;
    case SetRunning(_) =>
      NodeWritten(cfg, c, h, c.node.(status := Running));
      hide BackedUp;
  }

  lemma ObserveKeepsBacked(cfg: Config, s: System, pc: ObservePc, a: Answer)
    requires Backed(cfg, s) && s.pc == InObserve(pc)
    ensures Backed(cfg, StepObserve(cfg, s, pc, a))
  {
    var c, h := s.cell, s.history;
    match pc
    case Wait(id) => hide BackedUp, FirstNonEmpty, RunReadsCanceled;
    case FinishErrored(id, stopCause, reason) =>
      RecordWritten(cfg, c, h, c.node, id, NewRecord(cfg, id, Errored, true, true, stopCause, reason));
      hide BackedUp;
    case NoRetry(_, _, _) => hide BackedUp, RunReadsCanceled;
  }

  lemma RunKeepsBacked(cfg: Config, s: System, e: Event)
    requires Backed(cfg, s)
    ensures Backed(cfg, StepRun(cfg, s, e))
  {
    var node := s.cell.node;
    NodeWritten(cfg, s.cell, s.history, node.(status := Skipped, stopCause := "failed", failureReason := "dependency_failed"));
    hide BackedUp, Finalized, RegisteredUpTo;
    if e.Finalize? {
      hide StepRun, Progress;
      FinalizeKeepsNode(cfg, s, e);
    } else {
      hide StepFinalizeRun;
    }
  }

  lemma CancelCallKeepsBacked(cfg: Config, s: System, e: Event)
    requires Backed(cfg, s)
    ensures Backed(cfg, StepCancelCall(cfg, s, e))
  {
    var c, h := s.cell, s.history;
    if e.CancelNode? {
      NodeWritten(cfg, c, h, c.node.(status := Canceled, stopCause := "canceled",
                                     failureReason := FirstNonEmpty(e.reason, REQUESTED), finished := true));
    } else if e.CancelIntent? && e.id in c.attempts {
      var m := RequestCancellation(FirstNonEmpty(e.reason, REQUESTED));
      RecordWritten(cfg, c, h, c.node, e.id, Mutate(c.attempts[e.id], m));
    }
    hide BackedUp, Finalized, RegisteredUpTo, FirstNonEmpty;
  }

  lemma NextKeepsBacked(cfg: Config, s: System, e: Event)
    requires Owned(cfg, s) && Backed(cfg, s)
    ensures Backed(cfg, Next(cfg, s, e))
  {
    hide Owned, Backed, StepReconcile, StepBind, StepRelease, StepSubmit, StepObserve, StepFinalizeNode, StepFail,
      StepRetry, StepCancel, StepRun, StepCancelCall;
    match e
    case Step(a) =>
      match s.pc {
        case Off =>
        case Done(_) =>
        case InReconcile(pc) => ReconcileKeepsBacked(cfg, s, pc, a);
        case InFinalize(pc) => FinalizeKeepsBacked(cfg, s, pc, a);
        case InFail(pc) => FailKeepsBacked(cfg, s, pc, a);
        case InRetry(pc) => RetryKeepsBacked(cfg, s, pc, a);
        case InCancel(pc) => CancelKeepsBacked(cfg, s, pc, a);
        case InBind(pc) => BindKeepsBacked(cfg, s, pc, a);
        case InRelease(pc) => ReleaseKeepsBacked(cfg, s, pc, a);
        case InSubmit(pc) => SubmitKeepsBacked(cfg, s, pc, a);
        case InObserve(pc) => ObserveKeepsBacked(cfg, s, pc, a);
      }
    case _ => RunKeepsBacked(cfg, s, e); CancelCallKeepsBacked(cfg, s, e);
  }

  lemma {:induction false} EveryRunKeepsBacked(cfg: Config, events: seq<Event>)
    requires AdmissibleRun(cfg, Init(cfg), events)
    ensures Backed(cfg, Execute(cfg, Init(cfg), events))
    decreases |events|
  {
    hide Next, Admissible, Owned;
    if events != [] {
      var last := |events| - 1;
      EveryRunKeepsNumbered(cfg, events[..last]);
      EveryRunKeepsBacked(cfg, events[..last]);
      NextKeepsBacked(cfg, Execute(cfg, Init(cfg), events[..last]), events[last]);
    }
  }

  /** In every reachable state a Completed attempt has had each of its non-empty declared
    * outputs registered under its own id and its success notification accepted; and a
    * Succeeded node has a current attempt of which this holds. */
  lemma CompletedMeansFinalized(cfg: Config, s: System, id: string)
    requires Reachable(cfg, s)
    requires || (id in s.cell.attempts && s.cell.attempts[id].status.Completed?)
             || (s.cell.node.status.Succeeded? && id == s.cell.node.currentAttemptID)
    ensures id in s.history.notified
    ensures forall o | o in cfg.outputs && o != "" :: (id, o) in s.history.registered
  {
    var events :| AdmissibleRun(cfg, Init(cfg), events) && Execute(cfg, Init(cfg), events) == s;
    EveryRunKeepsBacked(cfg, events);
    assert Finalized(cfg, s.history.registered, s.history.notified, id);
  }
}
