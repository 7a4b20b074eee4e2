/** What a Cancel call does, what becomes of the intent it stores, and what the goroutine of the
  * run does around its runner: admission, restart, skipping and the final verdict.
  */
module ProtocolCancel {
  import opened Spec
  import opened Store
  import opened Reconcile
  import opened Protocol
  import opened ProtocolOutcomes
  import opened ProtocolResumes
  import opened ProtocolRecovery
  import opened ProtocolTermination
  import ProtocolNecessity
  import RunFold
  import opened Text

  // ---- one Cancel call ----

  /** The transactions of a Cancel call: the run, the node, and the intent if the node is running. */
  function CancelCall(s: System, reason: string): seq<Event> {
    [CancelRun(reason, false), CancelNode(reason, false)]
    + if s.cell.node.status == NodeStatus.Running && s.cell.node.currentAttemptID != ""
      then [CancelIntent(s.cell.node.currentAttemptID, reason, false)] else []
  }

  function Given(reason: string): string {
    if reason == "" then "cancellation_requested" else reason
  }

  function CanceledRun(run: RunRecord, reason: string): RunRecord {
    if run.status.IsTerminal() then run
    else run.(status := RunCanceled, stopCause := "canceled", failureReason := Given(reason))
  }

  /** A node that has ended is untouched, a running one keeps its record and its current attempt
    * carries the intent, and any other is canceled at once. */
  function CanceledCell(c: Cell, reason: string): Cell {
    var id := c.node.currentAttemptID;
    if c.node.status.IsTerminal() then c
    else if c.node.status == NodeStatus.Running then
      if id == "" || id !in c.attempts then c
      else c.(attempts := c.attempts[id := c.attempts[id].(cancelRequested := true, cancelReason := Given(reason))])
    else c.(node := c.node.(status := Canceled, stopCause := "canceled", failureReason := Given(reason), finished := true))
  }

  /** A whole undisturbed call, from any state of a process that is up. The runner stays where it
    * is, and no call to the backend is made on its behalf. */
  lemma CancelTakesEffect(cfg: Config, s: System, reason: string)
    requires !s.exec.Down?
    ensures var t := Execute(cfg, s, CancelCall(s, reason));
            && t.run == CanceledRun(s.run, reason)
            && t.cell == CanceledCell(s.cell, reason)
            && t.pc == s.pc && t.exec == s.exec && t.unresolved == s.unresolved && t.history == s.history
  {
    var id := s.cell.node.currentAttemptID;
    var first, second, third := CancelRun(reason, false), CancelNode(reason, false), CancelIntent(id, reason, false);
    RunIsCanceled(cfg, s, reason);
    var t := s.(run := CanceledRun(s.run, reason));
    NodeIsCanceled(cfg, t, reason);
    if s.cell.node.status == NodeStatus.Running && id != "" {
      ThreeSteps(cfg, s, first, second, third);
      assert CancelCall(s, reason) == [first, second, third];
      IntentIsStored(cfg, t.(intents := t.intents + {id}), id, reason);
    } else {
      TwoSteps(cfg, s, first, second);
      assert CancelCall(s, reason) == [first, second];
    }
    hide Execute, Next, CancelCall;
  }

  lemma RunIsCanceled(cfg: Config, s: System, reason: string)
    requires !s.exec.Down?
    ensures Next(cfg, s, CancelRun(reason, false)) == s.(run := CanceledRun(s.run, reason))
  {
    hide StepRunner, StepRun;
  }

  lemma NodeIsCanceled(cfg: Config, s: System, reason: string)
    requires !s.exec.Down?
    ensures Next(cfg, s, CancelNode(reason, false))
            == if s.cell.node.status == NodeStatus.Running && s.cell.node.currentAttemptID != ""
               then s.(intents := s.intents + {s.cell.node.currentAttemptID})
               else s.(cell := CanceledCell(s.cell, reason))
  {
    hide StepRunner, StepRun;
  }

  lemma IntentIsStored(cfg: Config, s: System, id: string, reason: string)
    requires !s.exec.Down? && id in s.intents
    requires s.cell.node.status == NodeStatus.Running && s.cell.node.currentAttemptID == id && id != ""
    ensures Next(cfg, s, CancelIntent(id, reason, false)) == s.(cell := CanceledCell(s.cell, reason))
  {
    hide StepRunner, StepRun;
  }

  /** A transaction of a Cancel call that fails, or comes while the process is down, does nothing;
    * nor does an intent no call has announced. */
  lemma FailedCancelDoesNothing(cfg: Config, s: System, e: Event)
    requires match e
             case CancelRun(_, fault) => fault || s.exec.Down?
             case CancelNode(_, fault) => fault || s.exec.Down?
             case CancelIntent(id, _, fault) => fault || s.exec.Down? || id !in s.intents
             case _ => false
    ensures Next(cfg, s, e) == s
  {
  }

  /** The runner never writes the run. */
  lemma RunnerKeepsRun(cfg: Config, s: System, a: Answer)
    ensures StepRunner(cfg, s, a).run == s.run
  {
    if s.pc.InReconcile? || s.pc.InBind? || s.pc.InRelease? || s.pc.InSubmit? {
      StartKeepsRun(cfg, s, a);
      hide StepRunner;
    } else {
      hide StepReconcile, StepBind, StepRelease, StepSubmit, TrimSpace, RunReadsCanceled, EffectiveCancellationReason,
        NewRecord, Terminal, UpsertCell, MutateCell;
    }
  }

  lemma StartKeepsRun(cfg: Config, s: System, a: Answer)
    requires s.pc.InReconcile? || s.pc.InBind? || s.pc.InRelease? || s.pc.InSubmit?
    ensures StepRunner(cfg, s, a).run == s.run
  {
    hide StepObserve, StepFinalizeNode, StepFail, StepRetry, StepCancel, Dispatch, OpenedOpportunities, Restorable,
      RunReadsCanceled, NewRecord, UpsertCell, AllocateCell, OpenCell, PersistHandleCell, NodeStatusFromAttempt;
  }

  /** Exactly these events take a run out of its cancellation: an admission or a graph that started
    * without looking at it, and a verdict that was read before it. */
  lemma CancellationIsUndoneBy(cfg: Config, s: System, e: Event)
    requires s.run.status == RunCanceled
    ensures Next(cfg, s, e).run.status != RunCanceled <==>
              || (e.Admit? && !e.fault && s.exec.Submitted?)
              || (e.GraphStart? && e.ok && !e.fault && s.exec.Launched?)
              || (e.Finalize? && !e.fault && s.exec.FinalizeWrite? && s.exec.verdict != RunCanceled)
              || (e.Finalize? && !e.fault && s.exec == FinalizeHandoff(RunSucceeded) && !e.handoffOk)
  {
    if e.Step? {
      RunnerKeepsRun(cfg, s, e.answer);
    }
    hide StepRunner, RunFold.Verdict, RunFold.StopCauseOf;
  }

  /** One call between admission and the start of the graph is enough: the run is running again,
    * for every configuration. */
  lemma CancellationIsOverwritten(cfg: Config, reason: string) returns (canceled: System, s: System)
    ensures Reachable(cfg, canceled) && canceled.run.status == RunCanceled
    ensures s == Next(cfg, canceled, GraphStart(true, false))
    ensures Reachable(cfg, s) && s.run.status == RunRunning && s.run.stopCause == "canceled" && s.exec == Graph
  {
    var t := IsAdmitted(cfg);
    hide Reachable, StepRunner;
    canceled := CanceledOnceAdmitted(cfg, t, reason);
    s := ProtocolNecessity.Happens(cfg, canceled, GraphStart(true, false));
    hide StepCancelCall;
  }

  lemma IsAdmitted(cfg: Config) returns (t: System)
    ensures Reachable(cfg, t) && t.run.status == RunAdmitted && t.exec == Launched
  {
    ProtocolNecessity.InitIsReachable(cfg);
    hide Reachable, StepRunner, StepCancelCall;
    t := ProtocolNecessity.Happens(cfg, Init(cfg), Admit(false));
  }

  lemma CanceledOnceAdmitted(cfg: Config, s: System, reason: string) returns (t: System)
    requires Reachable(cfg, s) && s.run.status == RunAdmitted && s.exec == Launched
    ensures Reachable(cfg, t) && t.run.status == RunCanceled && t.run.stopCause == "canceled" && t.exec == Launched
  {
    hide Reachable, StepRunner, StepRun;
    t := ProtocolNecessity.Happens(cfg, s, CancelRun(reason, false));
  }

  // ---- a stored intent ----

  /** CancelNode went through for the found job of this attempt. */
  predicate Confirms(s: System, e: Event, id: string) {
    s.pc == InReconcile(AttachCancel(id, true)) && e.Step? && e.answer.ok
  }

  ghost predicate Confirmed(cfg: Config, s: System, events: seq<Event>, id: string) {
    exists i :: 0 <= i < |events| && Confirms(Execute(cfg, s, events[..i]), events[i], id)
  }

  /** On the way from the record of an intent to its confirmation. */
  predicate Unconfirmed(s: System, id: string) {
    match s.pc
    case Done(result) => !result.ReturnedOk?
    case InReconcile(p) =>
      || p == ResolveIdentity(id, true) || p == AttachPersist(id, true) || p == AttachCancel(id, true)
      || p == ReconcilePc.Unresolved(id)
    case _ => false
  }

  lemma StaysUnconfirmed(cfg: Config, s: System, e: Event, id: string)
    requires Unconfirmed(s, id) && !Confirms(s, e, id) && !e.Crash? && Continues(e)
    ensures Unconfirmed(Next(cfg, s, e), id)
  {
    if e.Step? {
      hide RunReadsCanceled;
    } else {
      OthersKeepPlace(cfg, s, e);
      hide Next;
    }
  }

  lemma {:induction false} StaysUnconfirmedUntilConfirmed(cfg: Config, s: System, events: seq<Event>, id: string)
    requires Unconfirmed(s, id) && !Confirmed(cfg, s, events, id)
    requires forall e | e in events :: !e.Crash? && Continues(e)
    ensures Unconfirmed(Execute(cfg, s, events), id)
    decreases |events|
  {
    hide Unconfirmed, Confirms, Next;
    if events != [] {
      var last := |events| - 1;
      var before := events[..last];
      forall i | 0 <= i < |before|
        ensures !Confirms(Execute(cfg, s, before[..i]), before[i], id)
      {
        assert before[..i] == events[..i] && before[i] == events[i];
      }
      StaysUnconfirmedUntilConfirmed(cfg, s, before, id);
      assert !Confirms(Execute(cfg, s, events[..last]), events[last], id);
      StaysUnconfirmed(cfg, Execute(cfg, s, before), events[last], id);
    }
  }

  /** A runner that finds a fence without a handle and a stored intent comes to wait for the job
    * only after CancelNode went through, whatever else happens meanwhile, short of a crash. */
  lemma IntentIsConfirmedBeforeTheWait(cfg: Config, s: System, drive: bool, read: Answer, events: seq<Event>)
    requires s.pc == InReconcile(ReadAttempt(drive, s.cell.node)) && !read.fault
    requires OnlyFenced(s.cell) && Current(s.cell).cancelRequested
    requires forall e | e in events :: !e.Crash? && Continues(e)
    ensures var t := Next(cfg, s, Step(read));
            var id := s.cell.node.currentAttemptID;
            Execute(cfg, t, events).pc == InObserve(Wait(id)) ==> Confirmed(cfg, t, events, id)
  {
    var t, id := Next(cfg, s, Step(read)), s.cell.node.currentAttemptID;
    assert t.pc == InReconcile(ResolveIdentity(id, true));
    if !Confirmed(cfg, t, events, id) {
      StaysUnconfirmedUntilConfirmed(cfg, t, events, id);
    }
    hide Confirmed, Execute, Next;
  }

  // ---- the run ----

  /** Admitted and started, a run is running and its runner about to make its first read. */
  lemma AdmittedRunStarts(cfg: Config, s: System)
    requires s.exec == Submitted && s.pc == Off
    ensures Execute(cfg, s, [Admit(false), GraphStart(true, false), StartRunner])
            == s.(run := s.run.(status := RunRunning), exec := Graph, pc := InReconcile(Entry(false)))
  {
    ThreeSteps(cfg, s, Admit(false), GraphStart(true, false), StartRunner);
    hide Execute, StepRunner, StepCancelCall, StepFinalizeRun;
  }

  /** A run that is not admitted, or cannot be read, is left as it is. */
  lemma UnreadableRunIsLeftAlone(cfg: Config, s: System)
    ensures s.exec == Submitted ==> Next(cfg, s, Admit(true)) == s.(exec := Idle)
    ensures s.exec == Launched ==> Next(cfg, s, GetRunFails) == s.(exec := Idle)
    ensures s.exec == Booted ==> Next(cfg, s, Recover(true)) == s.(exec := Idle)
  {
  }

  /** What a restarted process does with what it finds: an open run is executed again, an ended
    * one is driven to the end of its open node, and otherwise there is nothing to do. */
  lemma RestartDispatches(cfg: Config, s: System)
    ensures var up := s.(exec := Idle, pc := Off, unresolved := false, intents := {});
            Execute(cfg, s, [Crash, Boot, Recover(false)])
            == if !s.run.status.IsTerminal() then up.(exec := Launched)
               else if s.cell.node.status.IsTerminal() then up
               else up.(exec := Driving, pc := InReconcile(Entry(true)))
  {
    ThreeSteps(cfg, s, Crash, Boot, Recover(false));
    hide Execute, StepRunner, StepCancelCall, StepFinalizeRun;
  }

  /** What the run makes of its graph: a success is for the verdict, an unresolved node keeps the
    * run open, and after any other end the verdict comes when a node still pending is skipped. */
  lemma GraphEndDispatches(cfg: Config, s: System, ok: bool)
    requires s.exec == Graph
    ensures ok && s.pc == Done(ReturnedOk) ==> Next(cfg, s, GraphEnd(ok)) == s.(exec := FinalizeRead(true))
    ensures !(ok && s.pc == Done(ReturnedOk)) && s.unresolved ==> Next(cfg, s, GraphEnd(ok)) == s.(exec := Idle)
    ensures !(ok && s.pc == Done(ReturnedOk)) && !s.unresolved ==>
              Execute(cfg, s, [GraphEnd(ok), SkipPending(false)])
              == s.(exec := FinalizeRead(false),
                    cell := if s.cell.node.status != Pending then s.cell
                            else s.cell.(node := s.cell.node.(status := Skipped, stopCause := "failed",
                                                              failureReason := "dependency_failed")))
  {
    TwoSteps(cfg, s, GraphEnd(ok), SkipPending(false));
    hide Execute, StepRunner, StepCancelCall, StepFinalizeRun;
  }

  /** A graph that cannot be started is a failed one. */
  lemma UnstartedGraphFails(cfg: Config, s: System, fault: bool)
    requires s.exec == Launched
    ensures Next(cfg, s, GraphStart(false, fault)) == s.(exec := FinalizeRead(false))
  {
  }

  /** Some node the run lists has this status. */
  predicate Listed(s: System, others: seq<NodeStatus>, st: NodeStatus) {
    s.cell.node.status == st || st in others
  }

  /** The final record of a run. A canceled run stays canceled; else a failed node, a canceled node
    * and a failed graph decide, in this order. A success is withdrawn if the handoff service
    * does not accept it. */
  lemma VerdictIsRecorded(cfg: Config, s: System, ok: bool, others: seq<NodeStatus>, why: string, handoffOk: bool, belied: string)
    requires s.exec == FinalizeRead(ok)
    ensures var t := Execute(cfg, s, [Finalize(others, why, true, false), Finalize(others, why, true, false),
                                      Finalize(others, belied, handoffOk, false)]);
            && t == s.(run := t.run, exec := Idle)
            && t.run == match FinalVerdict(s, ok, others)
                        case RunCanceled => Over(s.run, RunCanceled, "canceled", why)
                        case RunFailed => Over(s.run, RunFailed, "failed", why)
                        case _ => if handoffOk then Over(s.run, RunSucceeded, "finished", why)
                                  else Over(s.run, RunFailed, "failed", belied)
  {
    VerdictIsReached(cfg, s, ok, others, why);
    VerdictIsWritten(cfg, s.(exec := FinalizeWrite(FinalVerdict(s, ok, others))), FinalVerdict(s, ok, others),
                     others, why, handoffOk, belied);
    ThreeSteps(cfg, s, Finalize(others, why, true, false), Finalize(others, why, true, false),
               Finalize(others, belied, handoffOk, false));
    hide Execute, Next, Listed;
  }

  lemma VerdictIsWritten(cfg: Config, s: System, v: RunStatus, others: seq<NodeStatus>, why: string, handoffOk: bool,
                         belied: string)
    requires s.exec == FinalizeWrite(v) && v.IsTerminal()
    ensures Next(cfg, Next(cfg, s, Finalize(others, why, true, false)), Finalize(others, belied, handoffOk, false))
            == s.(exec := Idle,
                  run := match v
                         case RunCanceled => Over(s.run, RunCanceled, "canceled", why)
                         case RunFailed => Over(s.run, RunFailed, "failed", why)
                         case _ => if handoffOk then Over(s.run, RunSucceeded, "finished", why)
                                   else Over(s.run, RunFailed, "failed", belied))
  {
    hide StepRunner, StepCancelCall;
  }

  function FinalVerdict(s: System, ok: bool, others: seq<NodeStatus>): RunStatus {
    if s.run.status == RunCanceled then RunCanceled
    else if Listed(s, others, Failed) then RunFailed
    else if Listed(s, others, Canceled) then RunCanceled
    else if ok then RunSucceeded else RunFailed
  }

  lemma VerdictIsReached(cfg: Config, s: System, ok: bool, others: seq<NodeStatus>, why: string)
    requires s.exec == FinalizeRead(ok)
    ensures Next(cfg, s, Finalize(others, why, true, false)) == s.(exec := FinalizeWrite(FinalVerdict(s, ok, others)))
  {
    var statuses := multiset([s.cell.node.status] + others);
    assert forall st :: st in statuses <==> Listed(s, others, st);
    hide StepRunner, StepCancelCall, Listed;
  }

  function Over(run: RunRecord, status: RunStatus, stopCause: string, reason: string): RunRecord {
    run.(status := status, stopCause := stopCause, failureReason := reason, finished := true)
  }

  /** If the verdict cannot be read or written, a run still marked as running has failed with
    * that, and any other is left alone. */
  lemma LostVerdictFailsARunningRun(cfg: Config, s: System, lost: Event, last: Event)
    requires (s.exec.FinalizeRead? || s.exec.FinalizeWrite?) && lost.Finalize? && lost.fault && last.Finalize? && !last.fault
    ensures Execute(cfg, s, [lost, last])
            == s.(exec := Idle,
                  run := if s.run.status != RunRunning then s.run
                         else s.run.(status := RunFailed, stopCause := "failed", failureReason := "finalize_error"))
  {
    TwoSteps(cfg, s, lost, last);
    hide Execute, StepRunner, StepCancelCall;
  }
}
