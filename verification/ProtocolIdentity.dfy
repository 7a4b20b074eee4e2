/** Which attempt a runner works on, how many attempts there are and what they are called.
  * Nothing here depends on handles being durable.
  */
module ProtocolIdentity {
  import opened Spec
  import opened AttemptId
  import opened Store
  import opened Reconcile
  import opened AttemptState
  import opened Protocol

  /** The attempt a program counter names. */
  function Owner(pc: Pc): Option<string> {
    match pc
    case Off => None
    case Done(_) => None
    case InReconcile(p) =>
      if p.Entry? || p.ReadAttempt? || p.Repair? then None
      else if p.Restore? then Some(p.fallbackID)
      else Some(p.id)
    case InBind(p) => if p.Alloc? then None else Some(p.id)
    case InRelease(p) => Some(p.id)
    case InSubmit(p) => Some(p.id)
    case InObserve(p) => Some(p.id)
    case InFinalize(p) => Some(p.id)
    case InFail(p) => Some(p.id)
    case InRetry(p) => Some(p.id)
    case InCancel(p) => if p.MarkReason? || p.MarkCanceled? then None else Some(p.id)
  }

  predicate OwnsCurrent(c: Cell, pc: Pc) {
    Owner(pc).Some? ==> Owner(pc).value != "" && Owner(pc).value == c.node.currentAttemptID
  }

  predicate BelowCap(cfg: Config, c: Cell, pc: Pc) {
    && (pc == InBind(Alloc) || pc.InRetry? ==> c.node.realizationCount < Cap(cfg))
    && (pc.InRetry? && pc.retry.FailMark? ==> pc.retry.current.attemptID == pc.retry.id)
    && (pc.InReconcile? && pc.reconcile.ReadAttempt? ==>
          && pc.reconcile.snapshot.currentAttemptID == c.node.currentAttemptID
          && pc.reconcile.snapshot.handleJSON == c.node.handleJSON)
    && (c.node.currentAttemptID == "" ==> c.node.handleJSON == "")
    && (c.node.currentAttemptID != "" ==> c.node.realizationCount >= 1)
  }

  predicate Owned(cfg: Config, s: System) {
    Records(Cap(cfg), s.cell) && OwnsCurrent(s.cell, s.pc) && BelowCap(cfg, s.cell, s.pc)
  }

  lemma RunnerKeepsOwned(cfg: Config, s: System, a: Answer)
    requires Owned(cfg, s)
    ensures Owned(cfg, StepRunner(cfg, s, a))
  {
    hide Owned, StepReconcile, StepBind, StepRelease, StepSubmit, StepObserve, StepFinalizeNode, StepFail, StepRetry,
      StepCancel;
    match s.pc
    case InReconcile(pc) => ReconcileKeepsOwned(cfg, s, pc, a);
    case InBind(pc) => BindKeepsOwned(cfg, s, pc, a);
    case InRelease(pc) => ReleaseKeepsOwned(cfg, s, pc, a);
    case InSubmit(pc) => SubmitKeepsOwned(cfg, s, pc, a);
    case InObserve(pc) => ObserveKeepsOwned(cfg, s, pc, a);
    case InFinalize(pc) => FinalizeKeepsOwned(cfg, s, pc, a);
    case InFail(pc) => FailKeepsOwned(cfg, s, pc, a);
    case InRetry(pc) => RetryKeepsOwned(cfg, s, pc, a);
    case InCancel(pc) => CancelKeepsOwned(cfg, s, pc, a);
    case _ =>
  }

  lemma ReconcileKeepsOwned(cfg: Config, s: System, pc: ReconcilePc, a: Answer)
    requires Owned(cfg, s) && s.pc == InReconcile(pc)
    ensures Owned(cfg, StepReconcile(cfg, s, pc, a))
  {
    hide ClassifyReconcile, Records, Cap, Dispatch, RunReadsCanceled, NodeStatusFromAttempt;
    match pc
    case Entry(_) =>
    case ReadAttempt(drive, snapshot) => DispatchedOwner(cfg, s.cell, drive, snapshot);
    case Repair(_, _) => RecordsKept(Cap(cfg), s.cell, StepReconcile(cfg, s, pc, a).cell.node);
    case Restore(_) =>
    case ResolveIdentity(_, _) =>
    case AttachPersist(id, _) =>
      if id in s.cell.attempts && a.persist.Durable? {
        HandleKeepsRecords(Cap(cfg), s.cell, id, a.persist.handleJSON);
      }
    case AttachCancel(_, _) =>
    case Unresolved(_) =>
  }

  lemma DispatchedOwner(cfg: Config, c: Cell, drive: bool, snap: NodeRecord)
    requires Records(Cap(cfg), c) && (c.node.currentAttemptID == "" ==> c.node.handleJSON == "")
    requires snap.currentAttemptID == c.node.currentAttemptID && snap.handleJSON == c.node.handleJSON
    requires c.node.currentAttemptID != "" ==> c.node.realizationCount >= 1
    ensures var pc := Dispatch(drive, snap, GetCurrentAttempt(c));
            OwnsCurrent(c, pc) && BelowCap(cfg, c, pc)
  {
    ClassifiedOwner(Cap(cfg), c, snap);
    NoAttemptWithoutID(c);
    hide ClassifyReconcile, Records, Cap, GetCurrentAttempt;
  }

  lemma NoAttemptWithoutID(c: Cell)
    ensures c.node.currentAttemptID == "" ==> GetCurrentAttempt(c).None?
  {
  }

  lemma RecordsKept(cap: nat, c: Cell, node: NodeRecord)
    requires Records(cap, c)
    requires node.currentAttemptID == c.node.currentAttemptID && node.realizationCount == c.node.realizationCount
    ensures Records(cap, c.(node := node))
  {
  }

  lemma HandleKeepsRecords(cap: nat, c: Cell, id: string, handleJSON: string)
    requires Records(cap, c) && id in c.attempts
    ensures Records(cap, PersistHandleCell(c, id, handleJSON))
  {
  }

  lemma RecordKeepsRecords(cap: nat, c: Cell, a: AttemptRecord)
    requires Records(cap, c)
    requires a.attemptID == c.node.currentAttemptID && a.reattemptable ==> c.node.realizationCount < cap
    ensures Records(cap, UpsertCell(c, a))
  {
  }

  lemma MutationKeepsRecords(cap: nat, c: Cell, id: string, m: Mutation)
    requires Records(cap, c) && id in c.attempts
    ensures Records(cap, MutateCell(c, id, m))
  {
  }

  lemma ClassifiedOwner(cap: nat, c: Cell, snap: NodeRecord)
    requires Records(cap, c) && (c.node.currentAttemptID == "" ==> c.node.handleJSON == "")
    requires snap.currentAttemptID == c.node.currentAttemptID && snap.handleJSON == c.node.handleJSON
    ensures match ClassifyReconcile(snap, GetCurrentAttempt(c))
            case TerminalRepair => true
            case Fresh => c.node.realizationCount < cap
            case _ => snap.currentAttemptID != ""
  {
  }

  lemma BindKeepsOwned(cfg: Config, s: System, pc: BindPc, a: Answer)
    requires Owned(cfg, s) && s.pc == InBind(pc)
    ensures Owned(cfg, StepBind(cfg, s, pc, a))
  {
    var cap, c := Cap(cfg), s.cell;
    if pc.Alloc? {
      AllocationKeepsRecords(cfg, c);
      hide Records, Cap, AllocateID, DeterministicAttemptID, MayAllocate;
    } else {
      forall st
        ensures Records(cap, c.(node := c.node.(status := st)))
      {
        RecordsKept(cap, c, c.node.(status := st));
      }
      hide Records, Cap;
    }
  }

  lemma AllocationKeepsRecords(cfg: Config, c: Cell)
    requires Records(Cap(cfg), c) && c.node.realizationCount < Cap(cfg)
    ensures Records(Cap(cfg), AllocateCell(c, cfg.runID, cfg.nodeID))
    ensures AllocateID(c, cfg.runID, cfg.nodeID) != ""
  {
  }

  lemma ReleaseKeepsOwned(cfg: Config, s: System, pc: ReleasePc, a: Answer)
    requires Owned(cfg, s) && s.pc == InRelease(pc)
    ensures Owned(cfg, StepRelease(cfg, s, pc, a))
  {
    var cap, c := Cap(cfg), s.cell;
    RecordsKept(cap, c, c.node.(status := Starting));
    RecordsKept(cap, c, c.node.(status := Releasing));
    if pc.Open? && MayOpen(c, pc.id) {
      FenceKeepsRecords(cap, c, pc.id);
    }
    hide Records, Cap, OpenedOpportunities, OpenCell;
  }

  lemma FenceKeepsRecords(cap: nat, c: Cell, id: string)
    requires Records(cap, c) && MayOpen(c, id)
    ensures Records(cap, OpenCell(c, id)) && SameNode(c, OpenCell(c, id))
  {
  }

  /** The parts of a node that say what its runner works on. */
  predicate SameNode(c: Cell, d: Cell) {
    && d.node.currentAttemptID == c.node.currentAttemptID
    && d.node.handleJSON == c.node.handleJSON
    && d.node.realizationCount == c.node.realizationCount
  }

  lemma SubmitKeepsOwned(cfg: Config, s: System, pc: SubmitPc, a: Answer)
    requires Owned(cfg, s) && s.pc == InSubmit(pc)
    ensures Owned(cfg, StepSubmit(cfg, s, pc, a))
  {
    var cap, c := Cap(cfg), s.cell;
    match pc
    case Start(_) =>
    case PersistHandle(id) =>
      if id in c.attempts && a.persist.Durable? {
        HandleKeepsRecords(cap, c, id, a.persist.handleJSON);
      }
      hide Records, Cap;
    case MarkStarted(id) =>
      RecordKeepsRecords(cap, c, NewRecord(cfg, id, AttemptStatus.Started, true, false, "", ""));
      hide Records, Cap;
    case SetRunning(_) =>
      RecordsKept(cap, c, c.node.(status := Running));
      hide Records, Cap;
  }

  lemma ObserveKeepsOwned(cfg: Config, s: System, pc: ObservePc, a: Answer)
    requires Owned(cfg, s) && s.pc == InObserve(pc)
    ensures Owned(cfg, StepObserve(cfg, s, pc, a))
  {
    match pc
    case Wait(id) =>
      WaitGoesOn(cfg, s, id, a);
      hide Records, Cap, StepObserve;
    case FinishErrored(id, stopCause, reason) =>
      RecordKeepsRecords(Cap(cfg), s.cell, NewRecord(cfg, id, Errored, true, true, stopCause, reason));
      hide Records, Cap;
    case NoRetry(_, _, _) => hide Records, Cap, RunReadsCanceled;
  }

  lemma WaitGoesOn(cfg: Config, s: System, id: string, a: Answer)
    ensures var t := StepObserve(cfg, s, Wait(id), a);
            && t.cell == s.cell && Owner(t.pc) == Some(id)
            && (t.pc.InCancel? || t.pc.InObserve? || t.pc.InFinalize? || t.pc == InReconcile(Unresolved(id)))
  {
    hide FirstNonEmpty, RunReadsCanceled;
  }

  lemma FinalizeKeepsOwned(cfg: Config, s: System, pc: FinalizePc, a: Answer)
    requires Owned(cfg, s) && s.pc == InFinalize(pc)
    ensures Owned(cfg, StepFinalizeNode(cfg, s, pc, a))
  {
    var cap, c := Cap(cfg), s.cell;
    match pc
    case Register(_, _, _, _) => hide Records, Cap;
    case Notify(_, _, _) => hide Records, Cap;
    case Complete(id, stopCause, reason) =>
      RecordKeepsRecords(cap, c, NewRecord(cfg, id, Completed, true, true, stopCause, reason));
      hide Records, Cap;
    case SetSucceeded(_, stopCause, reason) =>
      RecordsKept(cap, c, Terminal(c.node, Succeeded, stopCause, reason));
      hide Records, Cap;
    case Defer(id) =>
      if id in c.attempts {
        MutationKeepsRecords(cap, c, id, CompleteProcess);
      }
      hide Records, Cap, Mutate;
  }

  lemma FailKeepsOwned(cfg: Config, s: System, pc: FailPc, a: Answer)
    requires Owned(cfg, s) && s.pc == InFail(pc)
    ensures Owned(cfg, StepFail(cfg, s, pc, a))
  {
    var cap, c := Cap(cfg), s.cell;
    match pc
    case FailUpsert(id, reason, _) =>
      RecordKeepsRecords(cap, c, NewRecord(cfg, id, Errored, true, true, "failed", reason));
      hide Records, Cap;
    case FailCheck(_, _, _) => hide Records, Cap;
    case FailBudget(_, _, _) => hide Records;
    case BudgetUpsert(id) =>
      RecordKeepsRecords(cap, c, NewRecord(cfg, id, Errored, true, true, "failed", "attempt_budget_exhausted"));
      hide Records, Cap;
    case TerminalizeFailed(_, stopCause, reason) =>
      RecordsKept(cap, c, Terminal(c.node, Failed, stopCause, reason));
      hide Records, Cap;
  }

  lemma RetryKeepsOwned(cfg: Config, s: System, pc: RetryPc, a: Answer)
    requires Owned(cfg, s) && s.pc == InRetry(pc)
    ensures Owned(cfg, StepRetry(cfg, s, pc, a))
  {
    var cap, c := Cap(cfg), s.cell;
    match pc
    case FailCurrent(_) => hide Records, Cap;
    case FailMark(id, current) =>
      RecordKeepsRecords(cap, c, current.(reattemptable := true));
      hide Records, Cap;
    case Reset(_) =>
      ResetKeepsRecords(cap, c, c.node.(status := Pending, stopCause := "", failureReason := "", finished := false,
                                        currentAttemptID := "", handleJSON := ""));
      hide Records, Cap;
  }

  lemma ResetKeepsRecords(cap: nat, c: Cell, node: NodeRecord)
    requires Records(cap, c) && c.node.realizationCount < cap
    requires node.currentAttemptID == "" && node.realizationCount == c.node.realizationCount
    ensures Records(cap, c.(node := node))
  {
  }

  lemma CancelKeepsOwned(cfg: Config, s: System, pc: CancelPc, a: Answer)
    requires Owned(cfg, s) && s.pc == InCancel(pc)
    ensures Owned(cfg, StepCancel(cfg, s, pc, a))
  {
    var cap, c := Cap(cfg), s.cell;
    match pc
    case CancelReason(_) => hide Records, Cap;
    case CancelUpsert(id, reason) =>
      RecordKeepsRecords(cap, c, NewRecord(cfg, id, Errored, false, true, "canceled", reason));
      hide Records, Cap;
    case CancelSet(_, reason) =>
      RecordsKept(cap, c, Terminal(c.node, Canceled, "canceled", reason));
      hide Records, Cap;
    case MarkReason => hide Records, Cap;
    case MarkCanceled(reason) =>
      RecordsKept(cap, c, c.node.(status := Canceled, stopCause := "canceled", failureReason := reason, finished := true));
      hide Records, Cap;
  }

  lemma RunKeepsOwned(cfg: Config, s: System, e: Event)
    requires Owned(cfg, s)
    ensures Owned(cfg, StepRun(cfg, s, e))
  {
    if e.Finalize? {
      FinalizeKeepsNode(cfg, s, e);
      hide StepRun, Records, Cap;
    } else if e.SkipPending? {
      RecordsKept(Cap(cfg), s.cell,
                  s.cell.node.(status := Skipped, stopCause := "failed", failureReason := "dependency_failed"));
      hide Records, Cap;
    } else {
      OthersKeepCell(cfg, s, e);
      hide StepRun, Records, Cap;
    }
  }

  /** The goroutine of the run starts and drops runners, and touches no record of the node. */
  lemma OthersKeepCell(cfg: Config, s: System, e: Event)
    requires !e.Finalize? && !e.SkipPending?
    ensures var t := StepRun(cfg, s, e);
            t.cell == s.cell && (t.pc == s.pc || t.pc.Off? || (t.pc.InReconcile? && t.pc.reconcile.Entry?))
  {
  }

  lemma FinalizeKeepsNode(cfg: Config, s: System, e: Event)
    requires e.Finalize?
    ensures StepRun(cfg, s, e).cell == s.cell && StepRun(cfg, s, e).pc == s.pc
  {
  }

  lemma CancelCallKeepsOwned(cfg: Config, s: System, e: Event)
    requires Owned(cfg, s)
    ensures Owned(cfg, StepCancelCall(cfg, s, e))
  {
    var cap, c := Cap(cfg), s.cell;
    if e.CancelNode? {
      RecordsKept(cap, c, c.node.(status := Canceled, stopCause := "canceled",
                                  failureReason := FirstNonEmpty(e.reason, REQUESTED), finished := true));
    } else if e.CancelIntent? && e.id in c.attempts {
      MutationKeepsRecords(cap, c, e.id, RequestCancellation(FirstNonEmpty(e.reason, REQUESTED)));
    }
    hide Records, Cap, Mutate, FirstNonEmpty;
  }

  // ---- with a reliable store: the exact set of attempts ----

  function IDs(cfg: Config, n: nat): set<string> {
    set i | 1 <= i <= n :: DeterministicAttemptID(cfg.runID, cfg.nodeID, i)
  }

  /** The attempts are numbered without gaps and only the current one is unfinished. */
  predicate Numbered(cfg: Config, c: Cell) {
    && c.attempts.Keys == IDs(cfg, c.node.realizationCount)
    && OnlyUnfinished(c.attempts, c.node.currentAttemptID)
  }

  predicate OnlyUnfinished(attempts: map<string, AttemptRecord>, id: string) {
    forall k | k in attempts && !attempts[k].status.IsTerminal() :: k == id
  }

  predicate EndsFirst(c: Cell, pc: Pc) {
    && ((pc.InFail? && (pc.fail.FailCheck? || pc.fail.FailBudget?)) || pc.InRetry?
        ==> var id := Owner(pc).value; id in c.attempts && c.attempts[id].status.IsTerminal())
    && (pc.InRetry? && pc.retry.FailMark? ==> pc.retry.current.status.IsTerminal())
  }

  predicate OneUnfinished(cfg: Config, s: System) {
    Numbered(cfg, s.cell) && EndsFirst(s.cell, s.pc)
  }

  lemma NextNumberIsFresh(cfg: Config, n: nat)
    ensures DeterministicAttemptID(cfg.runID, cfg.nodeID, n + 1) !in IDs(cfg, n)
    ensures IDs(cfg, n + 1) == IDs(cfg, n) + {DeterministicAttemptID(cfg.runID, cfg.nodeID, n + 1)}
  {
    var id := DeterministicAttemptID(cfg.runID, cfg.nodeID, n + 1);
    forall i | 1 <= i <= n
      ensures DeterministicAttemptID(cfg.runID, cfg.nodeID, i) != id
    {
      if DeterministicAttemptID(cfg.runID, cfg.nodeID, i) == id {
        InjectiveWithinRun(cfg.runID, cfg.nodeID, i, cfg.nodeID, n + 1);
      }
    }
  }

  lemma AllocatedNext(cfg: Config, c: Cell)
    requires Numbered(cfg, c) && MayAllocate(c)
    requires c.node.currentAttemptID != "" ==> c.node.currentAttemptID in c.attempts
    ensures AllocateID(c, cfg.runID, cfg.nodeID) !in c.attempts
    ensures Numbered(cfg, AllocateCell(c, cfg.runID, cfg.nodeID))
  {
    NextNumberIsFresh(cfg, c.node.realizationCount);
    var id, after := AllocateID(c, cfg.runID, cfg.nodeID), AllocateCell(c, cfg.runID, cfg.nodeID);
    NoEmptyID(cfg, c.node.realizationCount);
    assert "" !in c.attempts.Keys;
    OnlyNewIsUnfinished(c, id, after.attempts[id]);
    assert id == DeterministicAttemptID(cfg.runID, cfg.nodeID, c.node.realizationCount + 1);
    hide IDs, DeterministicAttemptID, AllocateID, MayAllocate, BareAttempt;
  }

  lemma NoEmptyID(cfg: Config, n: nat)
    ensures "" !in IDs(cfg, n)
  {
  }

  lemma OnlyNewIsUnfinished(c: Cell, id: string, a: AttemptRecord)
    requires MayAllocate(c) && (c.node.currentAttemptID != "" ==> c.node.currentAttemptID in c.attempts)
    requires OnlyUnfinished(c.attempts, c.node.currentAttemptID)
    requires "" !in c.attempts
    ensures c.attempts[id := a].Keys == c.attempts.Keys + {id}
    ensures OnlyUnfinished(c.attempts[id := a], id)
  {
  }

  lemma BindKeepsNumbered(cfg: Config, s: System, pc: BindPc, a: Answer)
    requires Owned(cfg, s) && OneUnfinished(cfg, s) && s.pc == InBind(pc)
    ensures OneUnfinished(cfg, StepBind(cfg, s, pc, a))
  {
    hide IDs, DeterministicAttemptID;
    if pc.Alloc? && MayAllocate(s.cell) {
      AllocatedNext(cfg, s.cell);
    }
  }

  lemma ReconcileKeepsNumbered(cfg: Config, s: System, pc: ReconcilePc, a: Answer)
    requires Owned(cfg, s) && OneUnfinished(cfg, s) && s.pc == InReconcile(pc)
    ensures OneUnfinished(cfg, StepReconcile(cfg, s, pc, a))
  {
    hide IDs;
  }

  lemma ReleaseKeepsNumbered(cfg: Config, s: System, pc: ReleasePc, a: Answer)
    requires Owned(cfg, s) && OneUnfinished(cfg, s) && s.pc == InRelease(pc)
    ensures OneUnfinished(cfg, StepRelease(cfg, s, pc, a))
  {
    hide IDs;
  }

  lemma SubmitKeepsNumbered(cfg: Config, s: System, pc: SubmitPc, a: Answer)
    requires Owned(cfg, s) && OneUnfinished(cfg, s) && s.pc == InSubmit(pc)
    ensures OneUnfinished(cfg, StepSubmit(cfg, s, pc, a))
  {
    hide IDs;
  }

  lemma ObserveKeepsNumbered(cfg: Config, s: System, pc: ObservePc, a: Answer)
    requires Owned(cfg, s) && OneUnfinished(cfg, s) && s.pc == InObserve(pc)
    ensures OneUnfinished(cfg, StepObserve(cfg, s, pc, a))
  {
    hide IDs;
  }

  lemma FinalizeKeepsNumbered(cfg: Config, s: System, pc: FinalizePc, a: Answer)
    requires Owned(cfg, s) && OneUnfinished(cfg, s) && s.pc == InFinalize(pc)
    ensures OneUnfinished(cfg, StepFinalizeNode(cfg, s, pc, a))
  {
    hide IDs;
  }

  lemma FailKeepsNumbered(cfg: Config, s: System, pc: FailPc, a: Answer)
    requires Owned(cfg, s) && OneUnfinished(cfg, s) && s.pc == InFail(pc) && !a.fault
    ensures OneUnfinished(cfg, StepFail(cfg, s, pc, a))
  {
    hide IDs;
  }

  lemma RetryKeepsNumbered(cfg: Config, s: System, pc: RetryPc, a: Answer)
    requires Owned(cfg, s) && OneUnfinished(cfg, s) && s.pc == InRetry(pc) && !a.fault
    ensures OneUnfinished(cfg, StepRetry(cfg, s, pc, a))
  {
    hide IDs;
  }

  lemma CancelKeepsNumbered(cfg: Config, s: System, pc: CancelPc, a: Answer)
    requires Owned(cfg, s) && OneUnfinished(cfg, s) && s.pc == InCancel(pc)
    ensures OneUnfinished(cfg, StepCancel(cfg, s, pc, a))
  {
    hide IDs;
  }

  lemma RunnerKeepsNumbered(cfg: Config, s: System, a: Answer)
    requires Owned(cfg, s) && OneUnfinished(cfg, s) && !a.fault
    ensures OneUnfinished(cfg, StepRunner(cfg, s, a))
  {
    hide Owned, OneUnfinished, StepReconcile, StepBind, StepRelease, StepSubmit, StepObserve, StepFinalizeNode, StepFail,
      StepRetry, StepCancel;
    match s.pc
    case InReconcile(pc) => ReconcileKeepsNumbered(cfg, s, pc, a);
    case InBind(pc) => BindKeepsNumbered(cfg, s, pc, a);
    case InRelease(pc) => ReleaseKeepsNumbered(cfg, s, pc, a);
    case InSubmit(pc) => SubmitKeepsNumbered(cfg, s, pc, a);
    case InObserve(pc) => ObserveKeepsNumbered(cfg, s, pc, a);
    case InFinalize(pc) => FinalizeKeepsNumbered(cfg, s, pc, a);
    case InFail(pc) => FailKeepsNumbered(cfg, s, pc, a);
    case InRetry(pc) => RetryKeepsNumbered(cfg, s, pc, a);
    case InCancel(pc) => CancelKeepsNumbered(cfg, s, pc, a);
    case _ =>
  }

  lemma OthersKeepNumbered(cfg: Config, s: System, e: Event)
    requires Owned(cfg, s) && OneUnfinished(cfg, s)
    ensures OneUnfinished(cfg, StepRun(cfg, s, e)) && OneUnfinished(cfg, StepCancelCall(cfg, s, e))
  {
    hide IDs, Owned;
  }

  lemma NextKeepsOwned(cfg: Config, s: System, e: Event)
    requires Owned(cfg, s)
    ensures Owned(cfg, Next(cfg, s, e))
  {
    hide Owned, StepRunner, StepRun, StepCancelCall;
    match e
    case Step(a) => RunnerKeepsOwned(cfg, s, a);
    case _ => RunKeepsOwned(cfg, s, e); CancelCallKeepsOwned(cfg, s, e);
  }

  lemma NextKeepsNumbered(cfg: Config, s: System, e: Event)
    requires Owned(cfg, s) && OneUnfinished(cfg, s) && cfg.storeReliable && Admissible(cfg, s, e)
    ensures OneUnfinished(cfg, Next(cfg, s, e))
  {
    hide Owned, OneUnfinished, StepRunner, StepRun, StepCancelCall;
    match e
    case Step(a) => RunnerKeepsNumbered(cfg, s, a);
    case _ => OthersKeepNumbered(cfg, s, e);
  }

  lemma {:induction false} EveryRunKeepsNumbered(cfg: Config, events: seq<Event>)
    requires AdmissibleRun(cfg, Init(cfg), events)
    ensures Owned(cfg, Execute(cfg, Init(cfg), events))
    ensures cfg.storeReliable ==> OneUnfinished(cfg, Execute(cfg, Init(cfg), events))
    decreases |events|
  {
    hide Next, Admissible;
    if events != [] {
      var last := |events| - 1;
      EveryRunKeepsNumbered(cfg, events[..last]);
      var s := Execute(cfg, Init(cfg), events[..last]);
      NextKeepsOwned(cfg, s, events[last]);
      if cfg.storeReliable {
        NextKeepsNumbered(cfg, s, events[last]);
      }
    }
  }

  lemma ReachableNumbered(cfg: Config, s: System)
    requires Reachable(cfg, s)
    ensures Owned(cfg, s)
    ensures cfg.storeReliable ==> OneUnfinished(cfg, s)
  {
    hide Owned, OneUnfinished, Init;
    var events :| AdmissibleRun(cfg, Init(cfg), events) && Execute(cfg, Init(cfg), events) == s;
    EveryRunKeepsNumbered(cfg, events);
  }

  // ---- main results ----

  /** The realization count never exceeds a positive ceiling, whatever fails and however
    * often the process crashes, because a node that classifies as Fresh is still below it. */
  lemma RealizationsStayBelowCeiling(cfg: Config, s: System)
    requires cfg.ceiling > 0 && Reachable(cfg, s)
    ensures s.cell.node.realizationCount <= cfg.ceiling
    ensures ClassifyReconcile(s.cell.node, GetCurrentAttempt(s.cell)) == Fresh
            ==> s.cell.node.realizationCount < cfg.ceiling
  {
    ReachableNumbered(cfg, s);
  }

  /** The identity of some realization up to the n-th. */
  ghost predicate IsNumbered(cfg: Config, n: nat, k: string) {
    exists i :: 1 <= i <= n && k == DeterministicAttemptID(cfg.runID, cfg.nodeID, i)
  }

  lemma InIDs(cfg: Config, n: nat, k: string)
    ensures k in IDs(cfg, n) <==> IsNumbered(cfg, n, k)
  {
    hide DeterministicAttemptID;
  }

  lemma NumberedMeans(cfg: Config, c: Cell)
    requires Numbered(cfg, c)
    ensures forall k :: k in c.attempts <==> IsNumbered(cfg, c.node.realizationCount, k)
    ensures forall k | k in c.attempts && !c.attempts[k].status.IsTerminal() :: k == c.node.currentAttemptID
    ensures AllocateID(c, cfg.runID, cfg.nodeID) !in c.attempts
  {
    NextNumberIsFresh(cfg, c.node.realizationCount);
    hide IDs, IsNumbered, DeterministicAttemptID;
    forall k
      ensures k in c.attempts <==> IsNumbered(cfg, c.node.realizationCount, k)
    {
      assert k in c.attempts <==> k in c.attempts.Keys;
      InIDs(cfg, c.node.realizationCount, k);
    }
  }

  /** With a reliable store a node's attempts are exactly the numbers allocated so far, at
    * most the current one is unfinished, and the next allocation overwrites no record. */
  lemma OneUnfinishedAttemptAlwaysFresh(cfg: Config, s: System)
    requires cfg.storeReliable && Reachable(cfg, s)
    ensures forall k :: k in s.cell.attempts <==> IsNumbered(cfg, s.cell.node.realizationCount, k)
    ensures forall k | k in s.cell.attempts && !s.cell.attempts[k].status.IsTerminal() :: k == s.cell.node.currentAttemptID
    ensures AllocateID(s.cell, cfg.runID, cfg.nodeID) !in s.cell.attempts
  {
    hide Reachable, Owned, Numbered, IsNumbered, AllocateID;
    ReachableNumbered(cfg, s);
    NumberedMeans(cfg, s.cell);
  }
}
