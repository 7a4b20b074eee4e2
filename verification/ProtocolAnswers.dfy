/** An attempt succeeds only if WaitNode said so: what the records claim was reported by the
  * backend, in every schedule and with no hypothesis.
  */
module ProtocolAnswers {
  import opened Spec
  import opened AttemptId
  import opened Store
  import opened Reconcile
  import opened AttemptState
  import opened Protocol
  import opened ProtocolIdentity

  /** This event is WaitNode's report that the attempt succeeded. */
  predicate ReportsSuccess(s: System, e: Event, id: string) {
    s.pc == InObserve(Wait(id)) && e.Step? && e.answer.wait.WaitSucceeded?
  }

  /** WaitNode reported success of the attempt at some point of the schedule. */
  ghost predicate Reported(cfg: Config, events: seq<Event>, id: string) {
    exists i :: 0 <= i < |events| && ReportsSuccess(Execute(cfg, Init(cfg), events[..i]), events[i], id)
  }

  ghost function AllReported(cfg: Config, events: seq<Event>): iset<string> {
    iset id | Reported(cfg, events, id)
  }

  // ---- what a set of reports vouches for ----

  predicate VouchedCell(ok: iset<string>, c: Cell) {
    && (forall k | k in c.attempts && c.attempts[k].status.Completed? :: k in ok)
    && (c.node.status.Succeeded? ==> c.node.currentAttemptID in ok)
  }

  predicate VouchedPc(ok: iset<string>, c: Cell, pc: Pc) {
    match pc
    case InReconcile(p) =>
      p.Repair? && p.attempt.Some? && p.attempt.value.status.Completed? && !p.snapshot.status.IsTerminal() ==>
        c.node.currentAttemptID in ok
    case InFinalize(p) => p.id in ok
    case InRetry(p) => p.FailMark? && p.current.status.Completed? ==> p.id in ok
    case _ => true
  }

  predicate Vouched(ok: iset<string>, s: System) {
    VouchedCell(ok, s.cell) && VouchedPc(ok, s.cell, s.pc)
  }

  lemma MoreReports(ok: iset<string>, more: iset<string>, s: System)
    requires Vouched(ok, s) && ok <= more
    ensures Vouched(more, s)
  {
  }

  // ---- single writes ----

  lemma NodeWritten(ok: iset<string>, c: Cell, node: NodeRecord)
    requires VouchedCell(ok, c) && (node.status.Succeeded? ==> node.currentAttemptID in ok)
    ensures VouchedCell(ok, c.(node := node))
  {
  }

  lemma RecordWritten(ok: iset<string>, c: Cell, a: AttemptRecord)
    requires VouchedCell(ok, c) && (a.status.Completed? ==> a.attemptID in ok)
    ensures VouchedCell(ok, UpsertCell(c, a))
  {
  }

  lemma MutationWritten(ok: iset<string>, c: Cell, id: string, m: Mutation)
    requires VouchedCell(ok, c) && id in c.attempts
    ensures VouchedCell(ok, MutateCell(c, id, m))
  {
  }

  lemma HandleWritten(ok: iset<string>, c: Cell, id: string, handleJSON: string)
    requires VouchedCell(ok, c) && id in c.attempts
    ensures VouchedCell(ok, PersistHandleCell(c, id, handleJSON))
    ensures PersistHandleCell(c, id, handleJSON).node.currentAttemptID == c.node.currentAttemptID
  {
  }

  lemma CurrentIsVouched(ok: iset<string>, c: Cell)
    requires VouchedCell(ok, c)
    ensures var cur := GetCurrentAttempt(c);
            cur.Some? && cur.value.status.Completed? ==> c.node.currentAttemptID in ok
  {
  }

  // ---- steps ----

  lemma ReconcileKeepsVouched(cfg: Config, ok: iset<string>, s: System, pc: ReconcilePc, a: Answer)
    requires Vouched(ok, s) && s.pc == InReconcile(pc)
    ensures Vouched(ok, StepReconcile(cfg, s, pc, a))
  {
    var c := s.cell;
    hide RunReadsCanceled, PersistHandleCell;
    match pc
    case ReadAttempt(drive, snapshot) =>
      CurrentIsVouched(ok, c);
      hide VouchedCell, GetCurrentAttempt, ClassifyReconcile;
    case Repair(_, _) =>
    case AttachPersist(id, _) =>
      if id in c.attempts && a.persist.Durable? {
        HandleWritten(ok, c, id, a.persist.handleJSON);
      }
      hide VouchedCell;
    case _ => hide VouchedCell;
  }

  lemma BindKeepsVouched(cfg: Config, ok: iset<string>, s: System, pc: BindPc, a: Answer)
    requires Vouched(ok, s) && s.pc == InBind(pc)
    ensures Vouched(ok, StepBind(cfg, s, pc, a))
  {
    hide DeterministicAttemptID, MayAllocate;
  }

  lemma ReleaseKeepsVouched(cfg: Config, ok: iset<string>, s: System, pc: ReleasePc, a: Answer)
    requires Vouched(ok, s) && s.pc == InRelease(pc)
    ensures Vouched(ok, StepRelease(cfg, s, pc, a))
  {
    hide OpenedOpportunities;
  }

  lemma SubmitKeepsVouched(cfg: Config, ok: iset<string>, s: System, pc: SubmitPc, a: Answer)
    requires Vouched(ok, s) && s.pc == InSubmit(pc)
    ensures Vouched(ok, StepSubmit(cfg, s, pc, a))
  {
    var c := s.cell;
    match pc
    case Start(_) => hide VouchedCell;
    case PersistHandle(id) =>
      if id in c.attempts && a.persist.Durable? {
        HandleWritten(ok, c, id, a.persist.handleJSON);
      }
      hide VouchedCell, PersistHandleCell;
    case MarkStarted(id) =>
      RecordWritten(ok, c, NewRecord(cfg, id, AttemptStatus.Started, true, false, "", ""));
      hide VouchedCell;
    case SetRunning(_) =>
      NodeWritten(ok, c, c.node.(status := Running));
      hide VouchedCell;
  }

  /** Only a report of success leads a runner into finalization. */
  lemma ObserveKeepsVouched(cfg: Config, ok: iset<string>, s: System, pc: ObservePc, a: Answer)
    requires Vouched(ok, s) && s.pc == InObserve(pc)
    requires ReportsSuccess(s, Step(a), pc.id) ==> pc.id in ok
    ensures Vouched(ok, StepObserve(cfg, s, pc, a))
  {
    match pc
    case Wait(_) => hide VouchedCell, FirstNonEmpty, RunReadsCanceled;
    case FinishErrored(id, stopCause, reason) =>
      RecordWritten(ok, s.cell, NewRecord(cfg, id, Errored, true, true, stopCause, reason));
      hide VouchedCell;
    case NoRetry(_, _, _) => hide VouchedCell, RunReadsCanceled;
  }

  lemma FinalizeKeepsVouched(cfg: Config, ok: iset<string>, s: System, pc: FinalizePc, a: Answer)
    requires Owned(cfg, s) && Vouched(ok, s) && s.pc == InFinalize(pc)
    ensures Vouched(ok, StepFinalizeNode(cfg, s, pc, a))
  {
    var c := s.cell;
    match pc
    case Register(_, _, _, _) => hide VouchedCell, Owned;
    case Notify(_, _, _) => hide VouchedCell, Owned;
    case Complete(id, stopCause, reason) =>
      RecordWritten(ok, c, NewRecord(cfg, id, Completed, true, true, stopCause, reason));
      hide VouchedCell, Owned;
    case SetSucceeded(id, stopCause, reason) =>
      NodeWritten(ok, c, Terminal(c.node, Succeeded, stopCause, reason));
      hide VouchedCell, Records;
    case Defer(id) =>
      if id in c.attempts {
        MutationWritten(ok, c, id, CompleteProcess);
      }
      hide VouchedCell, Owned, Mutate;
  }

  lemma FailKeepsVouched(cfg: Config, ok: iset<string>, s: System, pc: FailPc, a: Answer)
    requires Vouched(ok, s) && s.pc == InFail(pc)
    ensures Vouched(ok, StepFail(cfg, s, pc, a))
  {
    var c := s.cell;
    match pc
    case FailUpsert(id, reason, _) =>
      RecordWritten(ok, c, NewRecord(cfg, id, Errored, true, true, "failed", reason));
      hide VouchedCell;
    case FailCheck(_, _, _) => hide VouchedCell;
    case FailBudget(_, _, _) => hide VouchedCell;
    case BudgetUpsert(id) =>
      RecordWritten(ok, c, NewRecord(cfg, id, Errored, true, true, "failed", "attempt_budget_exhausted"));
      hide VouchedCell;
    case TerminalizeFailed(_, stopCause, reason) =>
      NodeWritten(ok, c, Terminal(c.node, Failed, stopCause, reason));
      hide VouchedCell;
  }

  lemma RetryKeepsVouched(cfg: Config, ok: iset<string>, s: System, pc: RetryPc, a: Answer)
    requires Owned(cfg, s) && Vouched(ok, s) && s.pc == InRetry(pc)
    ensures Vouched(ok, StepRetry(cfg, s, pc, a))
  {
    var c := s.cell;
    match pc
    case FailCurrent(_) =>
      CurrentIsVouched(ok, c);
      hide VouchedCell, Records, GetCurrentAttempt;
    case FailMark(_, current) =>
      RecordWritten(ok, c, current.(reattemptable := true));
      hide VouchedCell, Records;
    case Reset(_) =>
      NodeWritten(ok, c, c.node.(status := Pending, stopCause := "", failureReason := "", finished := false,
                                 currentAttemptID := "", handleJSON := ""));
      hide VouchedCell, Records;
  }

  lemma CancelKeepsVouched(cfg: Config, ok: iset<string>, s: System, pc: CancelPc, a: Answer)
    requires Vouched(ok, s) && s.pc == InCancel(pc)
    ensures Vouched(ok, StepCancel(cfg, s, pc, a))
  {
    var c := s.cell;
    match pc
    case CancelReason(_) => hide VouchedCell;
    case CancelUpsert(id, reason) =>
      RecordWritten(ok, c, NewRecord(cfg, id, Errored, false, true, "canceled", reason));
      hide VouchedCell;
    case CancelSet(_, reason) =>
      NodeWritten(ok, c, Terminal(c.node, Canceled, "canceled", reason));
      hide VouchedCell;
    case MarkReason => hide VouchedCell;
    case MarkCanceled(reason) =>
      NodeWritten(ok, c, c.node.(status := Canceled, stopCause := "canceled", failureReason := reason, finished := true));
      hide VouchedCell;
  }

  lemma RunnerKeepsVouched(cfg: Config, ok: iset<string>, s: System, a: Answer)
    requires Owned(cfg, s) && Vouched(ok, s)
    requires forall id | ReportsSuccess(s, Step(a), id) :: id in ok
    ensures Vouched(ok, StepRunner(cfg, s, a))
  {
    hide Owned, Vouched, StepReconcile, StepBind, StepRelease, StepSubmit, StepObserve, StepFinalizeNode, StepFail,
      StepRetry, StepCancel;
    match s.pc
    case InReconcile(pc) => ReconcileKeepsVouched(cfg, ok, s, pc, a);
    case InBind(pc) => BindKeepsVouched(cfg, ok, s, pc, a);
    case InRelease(pc) => ReleaseKeepsVouched(cfg, ok, s, pc, a);
    case InSubmit(pc) => SubmitKeepsVouched(cfg, ok, s, pc, a);
    case InObserve(pc) => ObserveKeepsVouched(cfg, ok, s, pc, a);
    case InFinalize(pc) => FinalizeKeepsVouched(cfg, ok, s, pc, a);
    case InFail(pc) => FailKeepsVouched(cfg, ok, s, pc, a);
    case InRetry(pc) => RetryKeepsVouched(cfg, ok, s, pc, a);
    case InCancel(pc) => CancelKeepsVouched(cfg, ok, s, pc, a);
    case _ =>
  }

  lemma RunKeepsVouched(cfg: Config, ok: iset<string>, s: System, e: Event)
    requires Vouched(ok, s)
    ensures Vouched(ok, StepRun(cfg, s, e))
  {
    if e.SkipPending? {
      NodeWritten(ok, s.cell,
                  s.cell.node.(status := Skipped, stopCause := "failed", failureReason := "dependency_failed"));
      hide VouchedCell, VouchedPc;
    } else if e.Finalize? {
      FinalizeKeepsNode(cfg, s, e);
      hide StepRun, VouchedCell, VouchedPc;
    } else {
      OthersKeepCell(cfg, s, e);
      hide StepRun, VouchedCell;
    }
  }

  lemma CancelCallKeepsVouched(cfg: Config, ok: iset<string>, s: System, e: Event)
    requires Vouched(ok, s)
    ensures Vouched(ok, StepCancelCall(cfg, s, e))
  {
    var c := s.cell;
    if e.CancelNode? {
      NodeWritten(ok, c, c.node.(status := Canceled, stopCause := "canceled",
                                 failureReason := FirstNonEmpty(e.reason, REQUESTED), finished := true));
    } else if e.CancelIntent? && e.id in c.attempts {
      MutationWritten(ok, c, e.id, RequestCancellation(FirstNonEmpty(e.reason, REQUESTED)));
    }
    hide VouchedCell, FirstNonEmpty, Mutate;
  }

  lemma NextKeepsVouched(cfg: Config, ok: iset<string>, s: System, e: Event)
    requires Owned(cfg, s) && Vouched(ok, s)
    requires forall id | ReportsSuccess(s, e, id) :: id in ok
    ensures Vouched(ok, Next(cfg, s, e))
  {
    hide Owned, Vouched, StepRunner, StepRun, StepCancelCall;
    match e
    case Step(a) => RunnerKeepsVouched(cfg, ok, s, a);
    case _ => RunKeepsVouched(cfg, ok, s, e); CancelCallKeepsVouched(cfg, ok, s, e);
  }

  lemma {:induction false} EveryRunIsVouched(cfg: Config, events: seq<Event>)
    requires AdmissibleRun(cfg, Init(cfg), events)
    ensures Vouched(AllReported(cfg, events), Execute(cfg, Init(cfg), events))
    decreases |events|
  {
    if events != [] {
      var last := |events| - 1;
      var before := events[..last];
      var s := Execute(cfg, Init(cfg), before);
      EveryRunIsVouched(cfg, before);
      EveryRunKeepsNumbered(cfg, before);
      ReportsGrow(cfg, events);
      hide Vouched, Next, Admissible, Owned, Reported;
      MoreReports(AllReported(cfg, before), AllReported(cfg, events), s);
      NextKeepsVouched(cfg, AllReported(cfg, events), s, events[last]);
    }
  }

  lemma ReportsGrow(cfg: Config, events: seq<Event>)
    requires events != []
    ensures var last := |events| - 1;
            && AllReported(cfg, events[..last]) <= AllReported(cfg, events)
            && forall id | ReportsSuccess(Execute(cfg, Init(cfg), events[..last]), events[last], id) ::
                 id in AllReported(cfg, events)
  {
    var last := |events| - 1;
    var before := events[..last];
    hide Execute, Init, ReportsSuccess;
    forall id | Reported(cfg, before, id)
      ensures Reported(cfg, events, id)
    {
      var i :| 0 <= i < |before| && ReportsSuccess(Execute(cfg, Init(cfg), before[..i]), before[i], id);
      assert before[..i] == events[..i] && before[i] == events[i];
    }
  }

  /** In every run a Completed attempt, and the current attempt of a Succeeded node, was reported
    * by WaitNode to have succeeded. */
  lemma SuccessWasReported(cfg: Config, events: seq<Event>, id: string)
    requires AdmissibleRun(cfg, Init(cfg), events)
    ensures var c := Execute(cfg, Init(cfg), events).cell;
            || (id in c.attempts && c.attempts[id].status == Completed)
            || (c.node.status == NodeStatus.Succeeded && id == c.node.currentAttemptID)
            ==> Reported(cfg, events, id)
  {
    EveryRunIsVouched(cfg, events);
    hide Reported, Execute;
  }
}
