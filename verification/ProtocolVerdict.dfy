/** What a runner's result and a run's verdict say about the node. */
module ProtocolVerdict {
  import opened Spec
  import opened Store
  import opened AttemptState
  import opened Protocol
  import opened ProtocolIdentity
  import opened ProtocolNecessity
  import ProtocolFinalized
  import RunFold

  /** The runner is past its classification and has not come to its end. */
  predicate Working(pc: Pc) {
    match pc
    case Off => false
    case Done(_) => false
    case InReconcile(p) => !p.Entry? && !p.Repair? && (p.ReadAttempt? ==> !p.snapshot.status.IsTerminal())
    case _ => true
  }

  /** While a runner works its node may be canceled or skipped, but has neither succeeded nor failed. */
  predicate Open(st: NodeStatus) {
    !st.Succeeded? && !st.Failed?
  }

  /** What a result tells the graph. A Failed node is always an error. Unless a registry call
    * failed, a Succeeded one is always nil, and nil and an error both mean that the node was
    * ended. An unresolved node is flagged, so that its run stays open. */
  predicate Means(cfg: Config, result: RunnerResult, s: System) {
    s.pc == Done(result) && Tells(cfg, result, s.cell.node.status, s.unresolved)
  }

  predicate Tells(cfg: Config, result: RunnerResult, st: NodeStatus, unresolved: bool) {
    && (st.Failed? ==> result.ReturnedError?)
    && (cfg.storeReliable && st.Succeeded? ==> result.ReturnedOk?)
    && (cfg.storeReliable && !result.ReturnedUnresolved? ==> st.IsTerminal())
    && (result.ReturnedUnresolved? ==> unresolved)
  }

  predicate Standing(cfg: Config, st: NodeStatus, pc: Pc, unresolved: bool) {
    && (Working(pc) ==> Open(st))
    && (match pc
        case Done(result) => Tells(cfg, result, st, unresolved)
        case InReconcile(p) =>
          && (p == Entry(true) ==> Open(st))
          && (p.ReadAttempt? && p.snapshot.status.IsTerminal() ==> st == p.snapshot.status)
          && (p.Repair? && p.snapshot.status.IsTerminal() ==> st == p.snapshot.status)
          && (p.Repair? && !p.snapshot.status.IsTerminal() ==>
                p.attempt.Some? && p.attempt.value.status.IsTerminal() && Open(st))
        case _ => true)
  }

  predicate Stands(cfg: Config, s: System) {
    Standing(cfg, s.cell.node.status, s.pc, s.unresolved) && (s.pc == InBind(Alloc) ==> MayAllocate(s.cell))
  }

  /** A runner's step leaves the run and its goroutine alone. */
  predicate SameRun(s: System, t: System) {
    t.run == s.run && t.exec == s.exec
  }

  lemma ReconcileKeepsStanding(cfg: Config, s: System, pc: ReconcilePc, a: Answer)
    requires Owned(cfg, s) && Stands(cfg, s) && s.pc == InReconcile(pc) && (cfg.storeReliable ==> !a.fault)
    ensures Stands(cfg, StepReconcile(cfg, s, pc, a)) && SameRun(s, StepReconcile(cfg, s, pc, a))
  {
    if pc.Repair? {
      RepairKeepsStanding(cfg, s, pc.snapshot, pc.attempt, a);
    } else {
      ClassifyKeepsStanding(cfg, s, pc, a);
    }
    hide *;
  }

  lemma RepairKeepsStanding(cfg: Config, s: System, snap: NodeRecord, attempt: Option<AttemptRecord>, a: Answer)
    requires Stands(cfg, s) && s.pc == InReconcile(Repair(snap, attempt)) && (cfg.storeReliable ==> !a.fault)
    ensures Stands(cfg, StepReconcile(cfg, s, Repair(snap, attempt), a))
    ensures SameRun(s, StepReconcile(cfg, s, Repair(snap, attempt), a))
  {
    hide MayAllocate;
  }

  lemma ClassifyKeepsStanding(cfg: Config, s: System, pc: ReconcilePc, a: Answer)
    requires Owned(cfg, s) && Stands(cfg, s) && s.pc == InReconcile(pc) && !pc.Repair? && (cfg.storeReliable ==> !a.fault)
    ensures Stands(cfg, StepReconcile(cfg, s, pc, a)) && SameRun(s, StepReconcile(cfg, s, pc, a))
  {
    if pc.ReadAttempt? {
      DispatchStands(cfg, s.cell.node.status, pc.drive, pc.snapshot, GetCurrentAttempt(s.cell), s.unresolved);
      FreshMayAllocate(s.cell, pc.drive, pc.snapshot);
    } else if pc.AttachPersist? && pc.id in s.cell.attempts && a.persist.Durable? {
      HandleKeepsStatus(s.cell, pc.id, a.persist.handleJSON);
    }
    hide Dispatch, RunReadsCanceled, Restorable, GetCurrentAttempt, PersistHandleCell, MayAllocate, Records;
  }

  lemma FreshMayAllocate(c: Cell, drive: bool, snap: NodeRecord)
    requires snap.currentAttemptID == c.node.currentAttemptID
    ensures Dispatch(drive, snap, GetCurrentAttempt(c)) == InBind(Alloc) ==> MayAllocate(c)
  {
  }

  lemma HandleKeepsStatus(c: Cell, id: string, handleJSON: string)
    requires id in c.attempts
    ensures PersistHandleCell(c, id, handleJSON).node.status == c.node.status
  {
  }

  lemma DispatchStands(cfg: Config, st: NodeStatus, drive: bool, snap: NodeRecord, attempt: Option<AttemptRecord>,
                       unresolved: bool)
    requires Standing(cfg, st, InReconcile(ReadAttempt(drive, snap)), unresolved)
    ensures Standing(cfg, st, Dispatch(drive, snap, attempt), unresolved)
  {
  }

  lemma BindKeepsStanding(cfg: Config, s: System, pc: BindPc, a: Answer)
    requires Stands(cfg, s) && s.pc == InBind(pc) && (cfg.storeReliable ==> !a.fault)
    ensures Stands(cfg, StepBind(cfg, s, pc, a)) && SameRun(s, StepBind(cfg, s, pc, a))
  {
    hide MayAllocate, AllocateID;
  }

  lemma ReleaseKeepsStanding(cfg: Config, s: System, pc: ReleasePc, a: Answer)
    requires Stands(cfg, s) && s.pc == InRelease(pc) && (cfg.storeReliable ==> !a.fault)
    ensures Stands(cfg, StepRelease(cfg, s, pc, a)) && SameRun(s, StepRelease(cfg, s, pc, a))
  {
    hide OpenedOpportunities;
  }

  lemma SubmitKeepsStanding(cfg: Config, s: System, pc: SubmitPc, a: Answer)
    requires Stands(cfg, s) && s.pc == InSubmit(pc) && (cfg.storeReliable ==> !a.fault)
    ensures Stands(cfg, StepSubmit(cfg, s, pc, a)) && SameRun(s, StepSubmit(cfg, s, pc, a))
  {
  }

  lemma ObserveKeepsStanding(cfg: Config, s: System, pc: ObservePc, a: Answer)
    requires Stands(cfg, s) && s.pc == InObserve(pc)
    ensures Stands(cfg, StepObserve(cfg, s, pc, a)) && SameRun(s, StepObserve(cfg, s, pc, a))
  {
    hide FirstNonEmpty, RunReadsCanceled;
  }

  lemma FinalizeKeepsStanding(cfg: Config, s: System, pc: FinalizePc, a: Answer)
    requires Stands(cfg, s) && s.pc == InFinalize(pc) && (cfg.storeReliable ==> !a.fault)
    ensures Stands(cfg, StepFinalizeNode(cfg, s, pc, a)) && SameRun(s, StepFinalizeNode(cfg, s, pc, a))
  {
  }

  lemma FailKeepsStanding(cfg: Config, s: System, pc: FailPc, a: Answer)
    requires Stands(cfg, s) && s.pc == InFail(pc) && (cfg.storeReliable ==> !a.fault)
    ensures Stands(cfg, StepFail(cfg, s, pc, a)) && SameRun(s, StepFail(cfg, s, pc, a))
  {
    hide RunReadsCanceled;
  }

  lemma RetryKeepsStanding(cfg: Config, s: System, pc: RetryPc, a: Answer)
    requires Stands(cfg, s) && s.pc == InRetry(pc)
    ensures Stands(cfg, StepRetry(cfg, s, pc, a)) && SameRun(s, StepRetry(cfg, s, pc, a))
  {
    hide GetCurrentAttempt;
  }

  lemma CancelKeepsStanding(cfg: Config, s: System, pc: CancelPc, a: Answer)
    requires Stands(cfg, s) && s.pc == InCancel(pc) && (cfg.storeReliable ==> !a.fault)
    ensures Stands(cfg, StepCancel(cfg, s, pc, a)) && SameRun(s, StepCancel(cfg, s, pc, a))
  {
    hide EffectiveCancellationReason;
  }

  lemma RunnerKeepsStanding(cfg: Config, s: System, a: Answer)
    requires Owned(cfg, s) && Stands(cfg, s) && (cfg.storeReliable ==> !a.fault)
    ensures Stands(cfg, StepRunner(cfg, s, a)) && SameRun(s, StepRunner(cfg, s, a))
  {
    hide Owned, Stands, StepReconcile, StepBind, StepRelease, StepSubmit, StepObserve, StepFinalizeNode, StepFail, StepRetry,
      StepCancel;
    match s.pc
    case InReconcile(pc) => ReconcileKeepsStanding(cfg, s, pc, a);
    case InBind(pc) => BindKeepsStanding(cfg, s, pc, a);
    case InRelease(pc) => ReleaseKeepsStanding(cfg, s, pc, a);
    case InSubmit(pc) => SubmitKeepsStanding(cfg, s, pc, a);
    case InObserve(pc) => ObserveKeepsStanding(cfg, s, pc, a);
    case InFinalize(pc) => FinalizeKeepsStanding(cfg, s, pc, a);
    case InFail(pc) => FailKeepsStanding(cfg, s, pc, a);
    case InRetry(pc) => RetryKeepsStanding(cfg, s, pc, a);
    case InCancel(pc) => CancelKeepsStanding(cfg, s, pc, a);
    case _ =>
  }

  // ---- the run ----

  predicate Gone(pc: Pc) {
    pc.Off? || pc.Done?
  }

  predicate EndedWell(st: NodeStatus) {
    st.Succeeded? || st.Skipped?
  }

  /** What stands behind the success of a run on its way into the record. */
  predicate Backs(s: System) {
    && (s.exec == FinalizeRead(true) ==> Gone(s.pc) && s.cell.node.status.IsTerminal())
    && (s.exec == FinalizeWrite(RunSucceeded) ==> Gone(s.pc) && EndedWell(s.cell.node.status))
    && (s.run.status == RunSucceeded ==>
          && Gone(s.pc) && EndedWell(s.cell.node.status)
          && (s.exec.FinalizeHandoff? || s.exec.FinalizeError? || s.exec.Idle? || s.exec.Down? || s.exec.Booted?))
  }

  lemma RunKeepsStanding(cfg: Config, s: System, e: Event)
    requires Stands(cfg, s)
    ensures Stands(cfg, StepRun(cfg, s, e)) && Stands(cfg, StepCancelCall(cfg, s, e))
  {
    hide RunFold.Verdict, RunFold.StopCauseOf, FirstNonEmpty;
  }

  /** A runner that is gone takes no step. */
  lemma RunnerKeepsBacking(cfg: Config, s: System, a: Answer)
    requires Backs(s) && SameRun(s, StepRunner(cfg, s, a))
    ensures Backs(StepRunner(cfg, s, a))
  {
    hide StepReconcile, StepBind, StepRelease, StepSubmit, StepObserve, StepFinalizeNode, StepFail, StepRetry, StepCancel;
  }

  lemma RunKeepsBacking(cfg: Config, s: System, e: Event)
    requires Backs(s) && Stands(cfg, s) && cfg.storeReliable
    ensures Backs(StepRun(cfg, s, e))
  {
    hide RunFold.Verdict, RunFold.StopCauseOf, Working;
    if e.Finalize? {
      FinalizeKeepsBacking(cfg, s, e);
      hide Standing, Backs, StepFinalizeRun;
    }
  }

  lemma FinalizeKeepsBacking(cfg: Config, s: System, e: Event)
    requires Backs(s) && e.Finalize?
    ensures Backs(StepFinalizeRun(cfg, s, e))
  {
    hide RunFold.Verdict, RunFold.StopCauseOf;
    if s.exec.FinalizeRead? {
      NodeIsCounted(s.cell.node.status, e.others, s.run.status == RunCanceled, s.exec.succeeded);
    }
  }

  /** A successful verdict leaves no node failed or canceled and rests on a successful graph. */
  lemma NodeIsCounted(st: NodeStatus, others: seq<NodeStatus>, canceled: bool, graphOk: bool)
    ensures RunFold.Verdict(canceled, multiset([st] + others), graphOk) == RunSucceeded ==>
              graphOk && !st.Failed? && !st.Canceled?
  {
    assert st in multiset([st] + others);
  }

  lemma CancelCallKeepsBacking(cfg: Config, s: System, e: Event)
    requires Backs(s)
    ensures Backs(StepCancelCall(cfg, s, e))
  {
    hide FirstNonEmpty, Mutate;
  }

  lemma {:induction false} EveryRunStands(cfg: Config, events: seq<Event>)
    requires AdmissibleRun(cfg, Init(cfg), events)
    ensures Stands(cfg, Execute(cfg, Init(cfg), events))
    ensures cfg.storeReliable ==> Backs(Execute(cfg, Init(cfg), events))
    decreases |events|
  {
    hide Owned, Stands, Backs, Next, Admissible, Init;
    if events == [] {
      InitStands(cfg);
    } else {
      var last := |events| - 1;
      EveryRunStands(cfg, events[..last]);
      EveryRunKeepsNumbered(cfg, events[..last]);
      NextStands(cfg, Execute(cfg, Init(cfg), events[..last]), events[last]);
    }
  }

  lemma InitStands(cfg: Config)
    ensures Stands(cfg, Init(cfg)) && Backs(Init(cfg))
  {
  }

  lemma NextStands(cfg: Config, s: System, e: Event)
    requires Owned(cfg, s) && Stands(cfg, s) && Admissible(cfg, s, e)
    ensures Stands(cfg, Next(cfg, s, e))
    ensures cfg.storeReliable && Backs(s) ==> Backs(Next(cfg, s, e))
  {
    hide Owned, Stands, Backs, StepRunner, StepRun, StepCancelCall;
    match e
    case Step(a) =>
      RunnerKeepsStanding(cfg, s, a);
      if Backs(s) { RunnerKeepsBacking(cfg, s, a); }
    case _ =>
      RunKeepsStanding(cfg, s, e);
      if cfg.storeReliable && Backs(s) { RunKeepsBacking(cfg, s, e); CancelCallKeepsBacking(cfg, s, e); }
  }

  lemma ReachableStands(cfg: Config, s: System)
    requires Reachable(cfg, s)
    ensures Stands(cfg, s)
    ensures cfg.storeReliable ==> Backs(s)
  {
    hide Stands, Backs, Init;
    var events :| AdmissibleRun(cfg, Init(cfg), events) && Execute(cfg, Init(cfg), events) == s;
    EveryRunStands(cfg, events);
  }

  // ---- main results ----

  /** In every reachable state in which a runner has returned, its result is truthful. */
  lemma ResultsAreTruthful(cfg: Config, s: System, result: RunnerResult)
    requires Reachable(cfg, s) && s.pc == Done(result)
    ensures Means(cfg, result, s)
  {
    hide Reachable;
    ReachableStands(cfg, s);
  }

  /** With a reliable store a run recorded as Succeeded has its node Succeeded, and then
    * finalized, or Skipped. */
  lemma SucceededRunEndedItsNode(cfg: Config, s: System)
    requires cfg.storeReliable && Reachable(cfg, s) && s.run.status == RunSucceeded
    ensures EndedWell(s.cell.node.status)
    ensures var id := s.cell.node.currentAttemptID;
            s.cell.node.status.Succeeded? ==>
              id in s.history.notified && forall o | o in cfg.outputs && o != "" :: (id, o) in s.history.registered
  {
    hide Reachable, Stands;
    ReachableStands(cfg, s);
    if s.cell.node.status.Succeeded? {
      ProtocolFinalized.CompletedMeansFinalized(cfg, s, s.cell.node.currentAttemptID);
    }
  }

  // ---- without reliable writes ----

  const STORED := GOOD.(persist := Durable("{}"))
  const TIMED_OUT := GOOD.(contextDone := true)
  const LOST := GOOD.(fault := true)

  /** Started and waited for, with everything on record. */
  lemma StartsOnRecord(cfg: Config, s: System, id: string) returns (t: System)
    requires Reachable(cfg, s) && s.pc == InSubmit(Start(id))
    requires id != "" && s.cell.node.currentAttemptID == id && id in s.cell.attempts
    ensures Reachable(cfg, t) && t.pc == InObserve(Wait(id)) && t.run == s.run && t.exec == s.exec
    ensures t.cell.node.currentAttemptID == id && t.cell.node.status == NodeStatus.Running
  {
    hide Reachable, StepReconcile, StepBind, StepRelease, StepObserve, StepFinalizeNode, StepFail, StepRetry, StepCancel;
    t := Happens(cfg, s, Step(STORED));
    t := Happens(cfg, t, Step(STORED));
    t := MarksRunning(cfg, t, id);
  }

  lemma MarksRunning(cfg: Config, s: System, id: string) returns (t: System)
    requires Reachable(cfg, s) && s.pc == InSubmit(MarkStarted(id)) && s.cell.node.currentAttemptID == id
    ensures Reachable(cfg, t) && t.pc == InObserve(Wait(id)) && t.run == s.run && t.exec == s.exec
    ensures t.cell.node.currentAttemptID == id && t.cell.node.status == NodeStatus.Running
  {
    hide Reachable, StepReconcile, StepBind, StepRelease, StepObserve, StepFinalizeNode, StepFail, StepRetry, StepCancel;
    t := Happens(cfg, s, Step(STORED));
    t := Happens(cfg, t, Step(STORED));
  }

  /** The node's timeout ends the wait; the attempt is recorded as canceled, the node not yet. */
  lemma TimesOut(cfg: Config, s: System, id: string) returns (t: System)
    requires Reachable(cfg, s) && s.pc == InObserve(Wait(id)) && s.cell.node.currentAttemptID == id && id != ""
    ensures Reachable(cfg, t) && t.cell.node == s.cell.node && t.run == s.run && t.exec == s.exec
    ensures id in t.cell.attempts && t.cell.attempts[id].status == Errored
    ensures t.cell.attempts[id].stopCause == "canceled" && !t.cell.attempts[id].reattemptable
  {
    hide Reachable, StepReconcile, StepBind, StepRelease, StepSubmit, StepFinalizeNode, StepFail, StepRetry;
    t := Happens(cfg, s, Step(TIMED_OUT));
    t := Happens(cfg, t, Step(GOOD));
    t := Happens(cfg, t, Step(GOOD));
  }

  /** The repair's node write is lost, and the runner returns nil all the same. */
  lemma RepairIsLost(cfg: Config, s: System, id: string) returns (t: System)
    requires Reachable(cfg, s) && s.pc == InReconcile(Entry(false)) && !cfg.storeReliable
    requires s.cell.node.currentAttemptID == id && id != "" && s.cell.node.status == NodeStatus.Running
    requires id in s.cell.attempts && s.cell.attempts[id].status == Errored
    requires s.cell.attempts[id].stopCause == "canceled" && !s.cell.attempts[id].reattemptable
    ensures Reachable(cfg, t) && t == s.(pc := Done(ReturnedOk))
  {
    hide Reachable, StepBind, StepRelease, StepSubmit, StepObserve, StepFinalizeNode, StepFail, StepRetry, StepCancel;
    t := Happens(cfg, s, Step(GOOD));
    t := Happens(cfg, t, Step(GOOD));
    t := Happens(cfg, t, Step(LOST));
  }

  lemma RunSucceeds(cfg: Config, s: System) returns (t: System)
    requires Reachable(cfg, s) && s.pc == Done(ReturnedOk) && s.exec == Graph
    requires s.run.status == RunRunning && s.cell.node.status == NodeStatus.Running
    ensures Reachable(cfg, t) && t.cell == s.cell && t.run.status == RunSucceeded
  {
    hide Reachable, StepRunner, StepCancelCall;
    t := Happens(cfg, s, GraphEnd(true));
    t := VerdictSucceeds(cfg, t);
  }

  lemma VerdictSucceeds(cfg: Config, s: System) returns (t: System)
    requires Reachable(cfg, s) && s.exec == FinalizeRead(true)
    requires s.run.status == RunRunning && s.cell.node.status == NodeStatus.Running
    ensures Reachable(cfg, t) && t.cell == s.cell && t.run.status == RunSucceeded
  {
    hide Reachable, StepRunner, StepCancelCall;
    t := Happens(cfg, s, Finalize([], "", true, false));
    t := Happens(cfg, t, Finalize([], "", true, false));
  }

  /** One lost write, and a run is recorded as Succeeded while its node is Running. */
  lemma SucceedsWithoutItsNode(cfg: Config) returns (t: System)
    requires !cfg.storeReliable
    ensures Reachable(cfg, t) && t.run.status == RunSucceeded && t.cell.node.status == NodeStatus.Running
  {
    hide Reachable;
    var s := Launches(cfg);
    var id;
    s, id := Allocates(cfg, s);
    s := BindsInputs(cfg, s, id);
    s := Releases(cfg, s, id);
    s := OpensFence(cfg, s, id);
    s := StartsOnRecord(cfg, s, id);
    s := TimesOut(cfg, s, id);
    s := Restarts(cfg, s);
    s := RepairIsLost(cfg, s, id);
    t := RunSucceeds(cfg, s);
  }

  /** A run recorded as Succeeded always has its node Succeeded or Skipped if and only if the
    * store is reliable, for every configuration. */
  lemma SuccessIsBackedExactlyWhenReliable(cfg: Config)
    ensures (forall s | Reachable(cfg, s) && s.run.status == RunSucceeded :: EndedWell(s.cell.node.status))
            <==> cfg.storeReliable
  {
    hide Reachable;
    if cfg.storeReliable {
      forall s | Reachable(cfg, s) && s.run.status == RunSucceeded
        ensures EndedWell(s.cell.node.status)
      {
        SucceededRunEndedItsNode(cfg, s);
      }
    } else {
      var t := SucceedsWithoutItsNode(cfg);
    }
  }
}
