/** Recovery that cannot decide changes nothing, recovery that can decides for the same
  * attempt, and repairing a half-written outcome gives what no crash would have given.
  */
module ProtocolRecovery {
  import opened Spec
  import opened Store
  import opened Reconcile
  import opened AttemptState
  import opened Protocol
  import opened ProtocolIdentity
  import ProtocolVerdict

  // ---- unresolved recovery ----

  /** An attempt that may be running at the backend, in a run that is not over. */
  predicate Awaiting(s: System) {
    && !s.run.status.IsTerminal()
    && var d := ClassifyReconcile(s.cell.node, GetCurrentAttempt(s.cell));
       d.Reattach? || d.ResolveByIdentity?
  }

  /** Restarts and steps during which nothing is learned about the backend: the job is not
    * found, its handle cannot be restored or stored, or waiting for it fails. The graph is
    * only given up after its runners have returned. */
  predicate Fruitless(s: System, e: Event) {
    match e
    case Crash => true
    case Boot => true
    case Recover(_) => true
    case GetRunFails => true
    case GraphStart(ok, _) => ok
    case StartRunner => true
    case GraphEnd(_) => s.pc.Done?
    case Step(a) =>
      (match s.pc
       case InReconcile(pc) =>
         (match pc
          case Entry(_) => !a.fault
          case ReadAttempt(_, _) => !a.fault
          case ResolveIdentity(_, _) => !a.fault
          case AttachPersist(_, _) => a.persist.PersistFailed? || (a.persist.Durable? && a.fault)
          case _ => true)
       case InObserve(pc) => pc.Wait? ==> a.wait.WaitError? && !a.contextDone
       case _ => true)
    case _ => false
  }

  predicate FruitlessRun(cfg: Config, s: System, events: seq<Event>)
    decreases |events|
  {
    events == [] ||
    var last := |events| - 1;
    FruitlessRun(cfg, s, events[..last]) && Fruitless(Execute(cfg, s, events[..last]), events[last])
  }

  /** Where a runner can be while nothing is learned. */
  predicate Waiting(node: NodeRecord, pc: Pc) {
    match pc
    case Off => true
    case Done(result) => result.ReturnedUnresolved?
    case InReconcile(p) =>
      (match p
       case Entry(drive) => !drive
       case ReadAttempt(drive, snapshot) => !drive && snapshot == node
       case AttachCancel(_, _) => false
       case Repair(_, _) => false
       case _ => true)
    case InObserve(p) => p.Wait?
    case _ => false
  }

  predicate Stutters(s0: System, s: System) {
    && s.cell == s0.cell && s.history == s0.history
    && s.run == s0.run.(status := s.run.status) && !s.run.status.IsTerminal()
    && (s.exec.Down? || s.exec.Booted? || s.exec.Idle? || s.exec.Launched? || s.exec.Graph?)
    && Waiting(s.cell.node, s.pc) && (s.pc.Done? ==> s.unresolved)
  }

  lemma FruitlessReconcileStutters(cfg: Config, s0: System, s: System, pc: ReconcilePc, a: Answer)
    requires Awaiting(s) && Stutters(s0, s) && Fruitless(s, Step(a)) && s.pc == InReconcile(pc)
    ensures Stutters(s0, StepReconcile(cfg, s, pc, a))
  {
    hide ClassifyReconcile, GetCurrentAttempt;
  }

  lemma FruitlessObserveStutters(cfg: Config, s0: System, s: System, pc: ObservePc, a: Answer)
    requires Stutters(s0, s) && Fruitless(s, Step(a)) && s.pc == InObserve(pc)
    ensures Stutters(s0, StepObserve(cfg, s, pc, a))
  {
  }

  lemma FruitlessStepStutters(cfg: Config, s0: System, s: System, a: Answer)
    requires Awaiting(s) && Stutters(s0, s) && Fruitless(s, Step(a))
    ensures Stutters(s0, StepRunner(cfg, s, a))
  {
    hide Awaiting, Fruitless, StepReconcile, StepObserve;
    match s.pc
    case InReconcile(pc) => FruitlessReconcileStutters(cfg, s0, s, pc, a);
    case InObserve(pc) => FruitlessObserveStutters(cfg, s0, s, pc, a);
    case _ =>
  }

  lemma FruitlessEventStutters(cfg: Config, s0: System, s: System, e: Event)
    requires Awaiting(s0) && Stutters(s0, s) && Fruitless(s, e)
    ensures Stutters(s0, Next(cfg, s, e))
  {
    hide ClassifyReconcile, GetCurrentAttempt;
    if e.Step? {
      hide StepRunner;
      FruitlessStepStutters(cfg, s0, s, e.answer);
    }
  }

  /** However often the process restarts, as long as nothing is learned about the backend
    * the attempt records, both counters, the fence, the current attempt and the calls made
    * stay as they are and the run stays open. */
  lemma {:induction false} UnresolvedRecoveryStutters(cfg: Config, s0: System, events: seq<Event>)
    requires Awaiting(s0) && s0.exec.Down? && s0.pc.Off?
    requires FruitlessRun(cfg, s0, events)
    ensures var s := Execute(cfg, s0, events);
            s.cell == s0.cell && s.history == s0.history && !s.run.status.IsTerminal()
    ensures Stutters(s0, Execute(cfg, s0, events))
    decreases |events|
  {
    hide Next, Fruitless, ClassifyReconcile;
    if events != [] {
      var last := |events| - 1;
      UnresolvedRecoveryStutters(cfg, s0, events[..last]);
      FruitlessEventStutters(cfg, s0, Execute(cfg, s0, events[..last]), events[last]);
    }
  }

  /** A later FOUND is attached to the very attempt that was left open, and the runner goes
    * on to wait for it; no other record changes and nothing is started. */
  lemma FoundIsAttachedToSameAttempt(cfg: Config, s: System, id: string, requested: bool,
                                     found: Answer, stored: Answer, go: Answer)
    requires Reachable(cfg, s) && s.pc == InReconcile(ResolveIdentity(id, requested))
    requires found.outcome.Found? && !found.fault && !stored.fault && stored.persist.Durable? && go.ok
    ensures var t := StepRunner(cfg, StepRunner(cfg, StepRunner(cfg, s, found), stored), go);
            && t.pc == InObserve(Wait(id)) && id == s.cell.node.currentAttemptID && id in s.cell.attempts
            && t.cell.node == s.cell.node.(handleJSON := stored.persist.handleJSON)
            && t.cell.attempts == s.cell.attempts[id := s.cell.attempts[id].(handleJSON := stored.persist.handleJSON)]
            && t.history == s.history && t.run == s.run
  {
    hide Reachable;
    ReachableNumbered(cfg, s);
    ToBeFollowed(cfg, s, id);
    hide Owned, Records, StepBind, StepRelease, StepSubmit, StepObserve, StepFinalizeNode, StepFail, StepRetry, StepCancel,
      Dispatch, RunReadsCanceled, Restorable;
  }

  lemma ToBeFollowed(cfg: Config, s: System, id: string)
    requires Owned(cfg, s) && Owner(s.pc) == Some(id)
    ensures id == s.cell.node.currentAttemptID && id in s.cell.attempts
  {
  }

  // ---- the gap between the attempt write and the node write ----

  /** What a restarted process does for the node, with a store that works. */
  function Comeback(s: System, a: Answer): seq<Event> {
    [Crash, Boot, Recover(false)]
    + (if s.run.status.IsTerminal() then [] else [GraphStart(true, false), StartRunner])
    + [Step(a), Step(a), Step(a)]
  }

  lemma {:induction false} ExecuteInParts(cfg: Config, s: System, before: seq<Event>, after: seq<Event>)
    ensures Execute(cfg, s, before + after) == Execute(cfg, Execute(cfg, s, before), after)
    decreases |after|
  {
    hide Next;
    if after == [] {
      assert before + after == before;
    } else {
      var last := |after| - 1;
      ExecuteInParts(cfg, s, before, after[..last]);
      assert (before + after)[..|before + after| - 1] == before + after[..last];
    }
  }

  lemma AnotherStep(cfg: Config, s: System, events: seq<Event>, e: Event)
    ensures Execute(cfg, s, events + [e]) == Next(cfg, Execute(cfg, s, events), e)
  {
    hide Next;
    assert (events + [e])[..|events|] == events;
  }

  lemma ThreeSteps(cfg: Config, s: System, e1: Event, e2: Event, e3: Event)
    ensures Execute(cfg, s, [e1, e2, e3]) == Next(cfg, Next(cfg, Next(cfg, s, e1), e2), e3)
  {
    hide Next, Execute;
    TwoSteps(cfg, s, e1, e2);
    AnotherStep(cfg, s, [e1, e2], e3);
    assert [e1, e2] + [e3] == [e1, e2, e3];
  }

  lemma TwoSteps(cfg: Config, s: System, e1: Event, e2: Event)
    ensures Execute(cfg, s, [e1, e2]) == Next(cfg, Next(cfg, s, e1), e2)
  {
    hide Next;
    AnotherStep(cfg, s, [], e1);
    AnotherStep(cfg, s, [e1], e2);
    assert [] + [e1] == [e1] && [e1] + [e2] == [e1, e2];
    assert Execute(cfg, s, []) == s;
    hide Execute;
  }

  /** Up to the first step of the new runner. */
  lemma ComesBack(cfg: Config, s: System) returns (t: System, drive: bool)
    requires !s.run.status.IsTerminal() || !s.cell.node.status.IsTerminal()
    ensures t.cell == s.cell && t.pc == InReconcile(Entry(drive)) && drive == s.run.status.IsTerminal()
    ensures forall a :: Execute(cfg, s, Comeback(s, a)) == Execute(cfg, t, [Step(a), Step(a), Step(a)])
  {
    drive := s.run.status.IsTerminal();
    var up := Next(cfg, Next(cfg, Next(cfg, s, Crash), Boot), Recover(false));
    ThreeSteps(cfg, s, Crash, Boot, Recover(false));
    var middle := if drive then [] else [GraphStart(true, false), StartRunner];
    TwoSteps(cfg, up, GraphStart(true, false), StartRunner);
    t := if drive then up else Next(cfg, Next(cfg, up, GraphStart(true, false)), StartRunner);
    hide Next;
    assert Execute(cfg, up, middle) == t;
    forall a
      ensures Execute(cfg, s, Comeback(s, a)) == Execute(cfg, t, [Step(a), Step(a), Step(a)])
    {
      ExecuteInParts(cfg, s, [Crash, Boot, Recover(false)], middle);
      ExecuteInParts(cfg, s, [Crash, Boot, Recover(false)] + middle, [Step(a), Step(a), Step(a)]);
    }
  }

  /** The new runner finds the attempt ended and projects it onto the node. */
  lemma ComebackRepairs(cfg: Config, s: System, a: Answer)
    requires !s.cell.node.status.IsTerminal() && !a.fault
    requires var cur := GetCurrentAttempt(s.cell);
             cur.Some? && cur.value.status.IsTerminal() && !cur.value.reattemptable
    ensures var r := GetCurrentAttempt(s.cell).value;
            Execute(cfg, s, Comeback(s, a)).cell
            == s.cell.(node := s.cell.node.(status := NodeStatusFromAttempt(r), stopCause := r.stopCause,
                                            failureReason := r.failureReason, finished := r.finished, handleJSON := ""))
  {
    var t, drive := ComesBack(cfg, s);
    ThreeSteps(cfg, t, Step(a), Step(a), Step(a));
    var snap, r := s.cell.node, GetCurrentAttempt(s.cell);
    assert Next(cfg, t, Step(a)) == t.(pc := InReconcile(ReadAttempt(drive, snap)));
    assert ClassifyReconcile(snap, r) == TerminalRepair;
    assert Next(cfg, t.(pc := InReconcile(ReadAttempt(drive, snap))), Step(a)) == t.(pc := InReconcile(Repair(snap, r)));
  }

  /** The runner has WaitNode's answer and is about to end the attempt with it. */
  predicate AboutToEnd(s: System, id: string, status: NodeStatus, stopCause: string, reason: string) {
    || (status == Failed && s.pc == InObserve(FinishErrored(id, stopCause, reason)))
    || (status == Succeeded && s.pc == InFinalize(Complete(id, stopCause, reason)))
  }

  /** A node that is already terminal is left as it is. */
  lemma ComebackKeepsTerminal(cfg: Config, s: System, a: Answer)
    requires s.cell.node.status.IsTerminal() && !a.fault
    ensures Execute(cfg, s, Comeback(s, a)).cell == s.cell
  {
    if s.run.status.IsTerminal() {
      NothingToComeBackFor(cfg, s, a);
    } else {
      var t, drive := ComesBack(cfg, s);
      ThreeSteps(cfg, t, Step(a), Step(a), Step(a));
      hide StepBind, StepRelease, StepSubmit, StepObserve, StepFinalizeNode, StepFail, StepRetry, StepCancel, StepRun,
        StepCancelCall, Comeback;
      var snap, r := s.cell.node, GetCurrentAttempt(s.cell);
      assert Next(cfg, t, Step(a)) == t.(pc := InReconcile(ReadAttempt(drive, snap)));
      assert ClassifyReconcile(snap, r) == TerminalRepair;
      assert Next(cfg, t.(pc := InReconcile(ReadAttempt(drive, snap))), Step(a)) == t.(pc := InReconcile(Repair(snap, r)));
    }
  }

  lemma NothingToComeBackFor(cfg: Config, s: System, a: Answer)
    requires s.cell.node.status.IsTerminal() && s.run.status.IsTerminal()
    ensures Execute(cfg, s, Comeback(s, a)).cell == s.cell
  {
    var t := Next(cfg, Next(cfg, Next(cfg, s, Crash), Boot), Recover(false));
    assert t.cell == s.cell && t.pc.Off?;
    ThreeSteps(cfg, s, Crash, Boot, Recover(false));
    ThreeSteps(cfg, t, Step(a), Step(a), Step(a));
    ExecuteInParts(cfg, s, [Crash, Boot, Recover(false)], [Step(a), Step(a), Step(a)]);
    assert Comeback(s, a) == [Crash, Boot, Recover(false)] + [Step(a), Step(a), Step(a)];
    hide StepRun, StepCancelCall, StepReconcile, StepBind, StepRelease, StepSubmit, StepObserve, StepFinalizeNode, StepFail,
      StepRetry, StepCancel;
  }

  /** A failure reported in a canceled run ends as a cancellation. */
  predicate CancelsInstead(s: System, status: NodeStatus) {
    status == Failed && s.run.status == RunCanceled
  }

  /** The steps an undisturbed runner still takes. */
  function Undisturbed(s: System, status: NodeStatus, a: Answer): seq<Event> {
    if CancelsInstead(s, status) then [Step(a), Step(a), Step(a)] + [Step(a), Step(a)]
    else if status == Failed then [Step(a), Step(a), Step(a)]
    else [Step(a), Step(a)]
  }

  lemma UndisturbedFailure(cfg: Config, s: System, id: string, stopCause: string, reason: string, a: Answer)
    requires s.pc == InObserve(FinishErrored(id, stopCause, reason)) && s.run.status != RunCanceled && !a.fault
    ensures var t := StepRunner(cfg, s, a);
            && Execute(cfg, s, Undisturbed(s, Failed, a)).cell
               == t.cell.(node := Terminal(t.cell.node, Failed, stopCause, reason))
            && t.cell == UpsertCell(s.cell, NewRecord(cfg, id, Errored, true, true, stopCause, reason))
            && t.run == s.run
  {
    ThreeSteps(cfg, s, Step(a), Step(a), Step(a));
    hide StepReconcile, StepBind, StepRelease, StepSubmit, StepFinalizeNode, StepRetry, StepCancel, StepRun, StepCancelCall;
  }

  lemma UndisturbedCancellation(cfg: Config, s: System, id: string, stopCause: string, reason: string, a: Answer)
    requires s.pc == InObserve(FinishErrored(id, stopCause, reason)) && s.run.status == RunCanceled && !a.fault
    ensures var t := StepRunner(cfg, s, a);
            && Execute(cfg, s, Undisturbed(s, Failed, a)).cell.node
               == Terminal(s.cell.node, Canceled, "canceled", EffectiveCancellationReason(s, a))
            && t.cell == UpsertCell(s.cell, NewRecord(cfg, id, Errored, true, true, stopCause, reason))
            && t.run == s.run
  {
    var t := StepRunner(cfg, s, a);
    ReportsCanceled(cfg, s, id, stopCause, reason, a);
    var u := Execute(cfg, s, [Step(a), Step(a), Step(a)]);
    CancelsNode(cfg, u, id, EffectiveCancellationReason(s, a), a);
    ExecuteInParts(cfg, s, [Step(a), Step(a), Step(a)], [Step(a), Step(a)]);
    hide StepRunner, Execute, Terminal, EffectiveCancellationReason, UpsertCell;
  }

  /** The attempt is recorded as failed, the run found canceled and the reason read. */
  lemma ReportsCanceled(cfg: Config, s: System, id: string, stopCause: string, reason: string, a: Answer)
    requires s.pc == InObserve(FinishErrored(id, stopCause, reason)) && s.run.status == RunCanceled && !a.fault
    ensures var t := StepRunner(cfg, s, a);
            && t == WithAttempt(s, NewRecord(cfg, id, Errored, true, true, stopCause, reason))
                    .(pc := InObserve(NoRetry(id, stopCause, reason)))
            && Execute(cfg, s, [Step(a), Step(a), Step(a)])
               == t.(pc := InCancel(CancelUpsert(id, EffectiveCancellationReason(s, a))))
  {
    ThreeSteps(cfg, s, Step(a), Step(a), Step(a));
    hide StepReconcile, StepBind, StepRelease, StepSubmit, StepFinalizeNode, StepFail, StepRetry, StepRun, StepCancelCall,
      Execute, NewRecord, UpsertCell;
  }

  lemma CancelsNode(cfg: Config, s: System, id: string, why: string, a: Answer)
    requires s.pc == InCancel(CancelUpsert(id, why)) && !a.fault
    ensures Execute(cfg, s, [Step(a), Step(a)]).cell.node == Terminal(s.cell.node, Canceled, "canceled", why)
  {
    TwoSteps(cfg, s, Step(a), Step(a));
    hide StepReconcile, StepBind, StepRelease, StepSubmit, StepObserve, StepFinalizeNode, StepFail, StepRetry, StepRun,
      StepCancelCall, Execute, NewRecord;
  }

  lemma UndisturbedSuccess(cfg: Config, s: System, id: string, stopCause: string, reason: string, a: Answer)
    requires s.pc == InFinalize(Complete(id, stopCause, reason)) && !a.fault
    ensures var t := StepRunner(cfg, s, a);
            && Execute(cfg, s, Undisturbed(s, Succeeded, a)).cell
               == t.cell.(node := Terminal(t.cell.node, Succeeded, stopCause, reason))
            && t.cell == UpsertCell(s.cell, NewRecord(cfg, id, Completed, true, true, stopCause, reason))
            && t.run == s.run
  {
    TwoSteps(cfg, s, Step(a), Step(a));
    hide StepReconcile, StepBind, StepRelease, StepSubmit, StepObserve, StepFail, StepRetry, StepCancel, StepRun,
      StepCancelCall;
  }

  function Outcome(n: NodeRecord): (NodeStatus, string, string) {
    (n.status, n.stopCause, n.failureReason)
  }

  /** When crash and recovery give the node the outcome no crash would have given it: never over
    * a node that a Cancel call or a skip already ended, unless the undisturbed runner would
    * have written that very cancellation; else whenever the stop cause is not the one that
    * stands for a cancellation, or is the cancellation the runner would have written. */
  predicate Agrees(s: System, status: NodeStatus, stopCause: string, reason: string, a: Answer) {
    var n := s.cell.node;
    if CancelsInstead(s, status) then
      var why := EffectiveCancellationReason(s, a);
      if n.status.IsTerminal() then Outcome(n) == (Canceled, "canceled", why)
      else stopCause == "canceled" && reason == why
    else !n.status.IsTerminal() && stopCause != "canceled"
  }

  /** A crash between the two writes that end a node, followed by recovery, gives the node the
    * outcome the undisturbed runner gives it exactly when Agrees says so; and for a node that
    * is not terminal, in a run whose cancellation plays no part, the whole cell is the same if
    * and only if the stop cause is not the one that stands for a cancellation. */
  lemma RepairEqualsNoCrash(cfg: Config, s: System, id: string, status: NodeStatus, stopCause: string, reason: string,
                            a: Answer, b: Answer)
    requires Reachable(cfg, s) && AboutToEnd(s, id, status, stopCause, reason) && !a.fault && !b.fault
    ensures var written := StepRunner(cfg, s, a);
            var crashed := Execute(cfg, written, Comeback(written, b)).cell;
            var undisturbed := Execute(cfg, s, Undisturbed(s, status, a)).cell;
            && (Outcome(crashed.node) == Outcome(undisturbed.node) <==> Agrees(s, status, stopCause, reason, a))
            && (!CancelsInstead(s, status) && !s.cell.node.status.IsTerminal() ==>
                  (crashed == undisturbed <==> stopCause != "canceled"))
  {
    hide Reachable, Comeback, Undisturbed, StepRunner, EffectiveCancellationReason;
    ReachableNumbered(cfg, s);
    ToBeFollowed(cfg, s, id);
    assert id != "";
    ProtocolVerdict.ReachableStands(cfg, s);
    assert ProtocolVerdict.Open(s.cell.node.status);
    hide Owned, ProtocolVerdict.Stands;
    if CancelsInstead(s, status) {
      UndisturbedCancellation(cfg, s, id, stopCause, reason, a);
    } else if status == Failed {
      UndisturbedFailure(cfg, s, id, stopCause, reason, a);
    } else {
      UndisturbedSuccess(cfg, s, id, stopCause, reason, a);
    }
    var written := StepRunner(cfg, s, a);
    if s.cell.node.status.IsTerminal() {
      ComebackKeepsTerminal(cfg, written, b);
    } else {
      ComebackRepairs(cfg, written, b);
      var r := GetCurrentAttempt(written.cell).value;
      assert NodeStatusFromAttempt(r) == if stopCause == "canceled" then Canceled else status;
    }
  }
}
