/** The node runner in its own form: the methods of nodeRunner in pkg/executor/executor.go, call
  * by call, with other goroutines acting between any two registry transactions.
  *
  * `s` is what the registry, the backend and the run have come to. The runner never looks at
  * `s.pc`; it is written to say where in the protocol the code stands. Each method is proved to
  * lead from its entry to its exit by the steps of module Protocol alone (`Follows`, from any
  * earlier state `base`), so every state the runner passes through is reachable there.
  */
module NodeRunner {
  import opened Spec
  import opened Store
  import opened Text
  import opened Reconcile
  import opened Protocol
  import opened ProtocolTermination
  import ProtocolIdentity
  import ProtocolSafety
  import opened ProtocolVerdict

  /** What other goroutines can do while a runner is between two transactions. */
  predicate Interferes(e: Event) {
    !e.Step? && !e.Crash? && Continues(e)
  }

  /** `after` comes from `before` by steps of the protocol's runner and what others do meanwhile. */
  ghost predicate Follows(cfg: Config, before: System, after: System) {
    exists events: seq<Event> ::
      AdmissibleRun(cfg, before, events) && Execute(cfg, before, events) == after
      && forall e | e in events :: e.Step? || Interferes(e)
  }

  /** Still a run of the protocol, from any earlier state `base` on, and nearer to the return,
    * which tells the truth about the node. */
  ghost predicate Onward(cfg: Config, base: System, before: System, after: System) {
    && Reachable(cfg, after) && Follows(cfg, base, after)
    && (after.pc.Done? ==> Means(cfg, after.pc.result, after))
    && (RetriesEnd(cfg) ==> Bound(cfg, after) < Bound(cfg, before))
  }

  lemma FollowsItself(cfg: Config, s: System)
    ensures Follows(cfg, s, s)
  {
    assert AdmissibleRun(cfg, s, []) && Execute(cfg, s, []) == s;
  }

  lemma FollowsOn(cfg: Config, base: System, s: System, e: Event)
    requires Follows(cfg, base, s) && Admissible(cfg, s, e) && (e.Step? || Interferes(e))
    ensures Follows(cfg, base, Next(cfg, s, e))
  {
    hide Next, Admissible;
    var events: seq<Event> :|
      AdmissibleRun(cfg, base, events) && Execute(cfg, base, events) == s
      && forall e | e in events :: e.Step? || Interferes(e);
    var more := events + [e];
    assert more[..|more| - 1] == events;
    assert AdmissibleRun(cfg, base, more) && Execute(cfg, base, more) == Next(cfg, s, e);
  }

  const ANSWER := Answer(false, true, false, "", Durable("{}"), AbsentNow, WaitError)

  /** A step of the runner leads onward. */
  lemma StepsOnward(cfg: Config, base: System, s: System, a: Answer)
    requires Reachable(cfg, s) && Follows(cfg, base, s) && Admissible(cfg, s, Step(a)) && Active(s)
    ensures Onward(cfg, base, s, StepRunner(cfg, s, a))
  {
    hide Reachable, Follows, Admissible, StepRunner, Bound, ProtocolIdentity.Owned;
    OneMore(cfg, s, Step(a));
    FollowsOn(cfg, base, s, Step(a));
    var t := StepRunner(cfg, s, a);
    if t.pc.Done? {
      ResultsAreTruthful(cfg, t, t.pc.result);
    }
    if RetriesEnd(cfg) {
      ProtocolIdentity.ReachableNumbered(cfg, s);
      Unfaulted(cfg, s, a);
      StepGetsCloser(cfg, s, a);
      hide Closer;
      CloserLowersBound(cfg, s, StepRunner(cfg, s, a));
    }
  }

  lemma Unfaulted(cfg: Config, s: System, a: Answer)
    requires Admissible(cfg, s, Step(a))
    ensures cfg.storeReliable ==> !a.fault
  {
  }

  /** No other goroutine moves the runner or takes a node out of a terminal status. */
  lemma OthersKeep(cfg: Config, s: System, e: Event)
    requires Interferes(e)
    ensures Next(cfg, s, e).pc == s.pc
    ensures s.cell.node.status.IsTerminal() ==> Next(cfg, s, e).cell.node.status.IsTerminal()
  {
  }

  class Runner {
    const cfg: Config
    var s: System

    constructor (cfg: Config, s: System)
      ensures this.cfg == cfg && this.s == s
    {
      this.cfg, this.s := cfg, s;
    }

    /** Other goroutines act, then the environment answers the runner's next call. */
    method Await(ghost base: System) returns (a: Answer)
      requires Reachable(cfg, s) && Follows(cfg, base, s) && Active(s)
      modifies this
      ensures Reachable(cfg, s) && Follows(cfg, base, s)
      ensures s.pc == old(s.pc) && Bound(cfg, s) <= Bound(cfg, old(s))
      ensures old(s).cell.node.status.IsTerminal() ==> s.cell.node.status.IsTerminal()
      ensures cfg.storeReliable ==> !a.fault
      ensures Onward(cfg, base, s, StepRunner(cfg, s, a))
    {
      hide Reachable, Follows, Admissible, Next, Bound, StepRunner;
      var events: seq<Event> := *;
      for i := 0 to |events|
        invariant Reachable(cfg, s) && Follows(cfg, base, s)
        invariant s.pc == old(s.pc) && Bound(cfg, s) <= Bound(cfg, old(s))
        invariant old(s).cell.node.status.IsTerminal() ==> s.cell.node.status.IsTerminal()
      {
        var e := events[i];
        if Interferes(e) && Admissible(cfg, s, e) {
          OneMore(cfg, s, e);
          FollowsOn(cfg, base, s, e);
          OthersKeep(cfg, s, e);
          OthersKeepBound(cfg, s, e);
          s := Next(cfg, s, e);
        }
      }
      a := *;
      if !Admissible(cfg, s, Step(a)) {
        a := ANSWER;
        AlwaysAdmissible(cfg, s);
      }
      StepsOnward(cfg, base, s, a);
      Unfaulted(cfg, s, a);
    }

    // ---- ending a node ----

    /** cancelNode */
    method CancelNode(id: string, ghost base: System) returns (result: RunnerResult)
      requires Reachable(cfg, s) && Follows(cfg, base, s) && s.pc == InCancel(CancelReason(id))
      modifies this
      ensures Onward(cfg, base, old(s), s) && Means(cfg, result, s)
      ensures cfg.storeReliable ==>
                result.ReturnedOk? && s.cell.node.status.Canceled? && s.cell.node.stopCause == "canceled"
    {
      hide Reachable, Follows, Bound, Tells;
      var a := Await(base);
      var reason := EffectiveCancellationReason(s, a);
      s := Go(s, InCancel(CancelUpsert(id, reason)));
      a := Await(base);
      if !a.fault {
        s := WithAttempt(s, NewRecord(cfg, id, Errored, false, true, "canceled", reason));
      }
      s := Go(s, InCancel(CancelSet(id, reason)));
      a := Await(base);
      if a.fault {
        s := Go(s, Done(ReturnedError));
        return ReturnedError;
      }
      s := Go(WithNode(s, Terminal(s.cell.node, Canceled, "canceled", reason)), Done(ReturnedOk));
      return ReturnedOk;
    }

    /** terminalizeFailed: an error whether or not the node write goes through */
    method TerminalizeFailed(id: string, stopCause: string, reason: string, ghost base: System)
      returns (result: RunnerResult)
      requires Reachable(cfg, s) && Follows(cfg, base, s)
      requires s.pc == InFail(FailPc.TerminalizeFailed(id, stopCause, reason))
      modifies this
      ensures Onward(cfg, base, old(s), s) && Means(cfg, result, s)
      ensures result.ReturnedError? && (cfg.storeReliable ==> CarriesOutcome(s, Failed, stopCause, reason))
    {
      hide Reachable, Follows, Bound, Tells;
      var a := Await(base);
      if !a.fault {
        s := WithNode(s, Terminal(s.cell.node, Failed, stopCause, reason));
      }
      s := Go(s, Done(ReturnedError));
      return ReturnedError;
    }

    /** reconcileUnresolved */
    method ReconcileUnresolved(id: string, ghost base: System) returns (result: RunnerResult)
      requires Reachable(cfg, s) && Follows(cfg, base, s) && s.pc == InReconcile(Unresolved(id))
      modifies this
      ensures Onward(cfg, base, old(s), s) && Means(cfg, result, s) && result.ReturnedUnresolved?
    {
      hide Reachable, Follows, Bound, Tells;
      var a := Await(base);
      s := Go(s, Done(ReturnedUnresolved)).(unresolved := true);
      return ReturnedUnresolved;
    }

    /** markNodeCanceledNoAttempt */
    method MarkNodeCanceledNoAttempt(ghost base: System) returns (result: RunnerResult)
      requires Reachable(cfg, s) && Follows(cfg, base, s) && s.pc == InCancel(MarkReason)
      modifies this
      ensures Onward(cfg, base, old(s), s) && Means(cfg, result, s)
    {
      hide Reachable, Follows, Bound, Tells;
      var a := Await(base);
      var reason := EffectiveCancellationReason(s, a);
      s := Go(s, InCancel(MarkCanceled(reason)));
      a := Await(base);
      if !a.fault && !s.cell.node.status.IsTerminal() {
        s := WithNode(s, s.cell.node.(status := Canceled, stopCause := "canceled", failureReason := reason,
                                      finished := true));
      }
      s := Go(s, Done(ReturnedOk));
      return ReturnedOk;
    }

    // ---- failing before the fence ----

    /** The Errored record a caller writes, then failNode: None asks RunE for another round. */
    method FailNode(id: string, reason: string, retryable: bool, ghost base: System)
      returns (result: Option<RunnerResult>)
      requires Reachable(cfg, s) && Follows(cfg, base, s) && s.pc == InFail(FailUpsert(id, reason, retryable))
      modifies this
      ensures Onward(cfg, base, old(s), s)
      ensures if result.Some? then Means(cfg, result.value, s) else s.pc == InReconcile(Entry(false))
    {
      hide Reachable, Follows, Bound, Tells;
      var a := Await(base);
      if !a.fault {
        s := WithAttempt(s, NewRecord(cfg, id, Errored, true, true, "failed", reason));
      }
      s := Go(s, InFail(FailCheck(id, reason, retryable)));
      a := Await(base);
      if RunReadsCanceled(s, a) {
        s := Go(s, InCancel(CancelReason(id)));
        var r := CancelNode(id, base);
        return Some(r);
      }
      s := Go(s, InFail(FailBudget(id, reason, retryable)));
      a := Await(base);
      if retryable && !a.fault && s.cell.node.realizationCount < cfg.ceiling {
        s := Go(s, InRetry(FailCurrent(id)));
        PrepareRetry(id, base);
        return None;
      }
      s := Go(s, InFail(FailPc.TerminalizeFailed(id, "failed", reason)));
      var r := TerminalizeFailed(id, "failed", reason, base);
      return Some(r);
    }

    /** failNode's re-realization arm: mark the attempt, reset the node. */
    method PrepareRetry(id: string, ghost base: System)
      requires Reachable(cfg, s) && Follows(cfg, base, s) && s.pc == InRetry(FailCurrent(id))
      modifies this
      ensures Onward(cfg, base, old(s), s) && s.pc == InReconcile(Entry(false))
    {
      hide Reachable, Follows, Bound, Tells;
      var a := Await(base);
      var cur := GetCurrentAttempt(s.cell);
      if !a.fault && cur.Some? && cur.value.attemptID == id && !cur.value.fenceOpened {
        s := Go(s, InRetry(FailMark(id, cur.value)));
        a := Await(base);
        if !a.fault {
          s := WithAttempt(s, cur.value.(reattemptable := true));
        }
      }
      s := Go(s, InRetry(Reset(id)));
      a := Await(base);
      if !a.fault {
        s := WithNode(s, s.cell.node.(status := Pending, stopCause := "", failureReason := "", finished := false,
                                      currentAttemptID := "", handleJSON := ""));
      }
      s := Go(s, InReconcile(Entry(false)));
    }

    // ---- observing the backend ----

    /** waitAndFinalize; `report` is what WaitNode answered. */
    method WaitAndFinalize(id: string, ghost base: System) returns (result: RunnerResult, ghost report: WaitAnswer)
      requires Reachable(cfg, s) && Follows(cfg, base, s) && s.pc == InObserve(Wait(id))
      modifies this
      ensures Onward(cfg, base, old(s), s) && Means(cfg, result, s)
      ensures cfg.storeReliable ==> Records(report, result, s)
    {
      hide Reachable, Follows, Bound, Tells;
      var a := Await(base);
      report := a.wait;
      match a.wait
      case WaitError =>
        if a.contextDone || RunReadsCanceled(s, a) {
          s := Go(s, InCancel(CancelReason(id)));
          result := CancelNode(id, base);
        } else {
          s := Go(s, InReconcile(Unresolved(id)));
          result := ReconcileUnresolved(id, base);
        }
      case WaitFailed(cause, why) =>
        var stopCause, reason := FirstNonEmpty(cause, "failed"), FirstNonEmpty(TrimSpace(why), "node_execution_failed");
        s := Go(s, InObserve(FinishErrored(id, stopCause, reason)));
        result := FinishFailed(id, stopCause, reason, base);
      case WaitSucceeded(cause, reason) =>
        var stopCause := FirstNonEmpty(cause, "finished");
        s := Go(s, InFinalize(Register(id, 0, stopCause, reason)));
        result := FinishSucceeded(id, stopCause, reason, base);
    }

    /** The workload failed: record it, then terminalizeFailedNoRetry. */
    method FinishFailed(id: string, stopCause: string, reason: string, ghost base: System)
      returns (result: RunnerResult)
      requires Reachable(cfg, s) && Follows(cfg, base, s) && s.pc == InObserve(FinishErrored(id, stopCause, reason))
      modifies this
      ensures Onward(cfg, base, old(s), s) && Means(cfg, result, s)
      ensures cfg.storeReliable ==>
                if result.ReturnedError? then CarriesOutcome(s, Failed, stopCause, reason)
                else result.ReturnedOk? && s.cell.node.status.Canceled?
    {
      hide Reachable, Follows, Bound, Tells;
      var a := Await(base);
      if !a.fault {
        s := WithAttempt(s, NewRecord(cfg, id, Errored, true, true, stopCause, reason));
      }
      s := Go(s, InObserve(NoRetry(id, stopCause, reason)));
      a := Await(base);
      if RunReadsCanceled(s, a) {
        s := Go(s, InCancel(CancelReason(id)));
        result := CancelNode(id, base);
      } else {
        s := Go(s, InFail(FailPc.TerminalizeFailed(id, stopCause, reason)));
        result := TerminalizeFailed(id, stopCause, reason, base);
      }
    }

    /** registerNodeOutputs: stops at the first output that cannot be registered. */
    method RegisterNodeOutputs(id: string, stopCause: string, reason: string, ghost base: System) returns (ok: bool)
      requires Reachable(cfg, s) && Follows(cfg, base, s) && s.pc == InFinalize(Register(id, 0, stopCause, reason))
      modifies this
      ensures Onward(cfg, base, old(s), s)
      ensures s.pc == if ok then InFinalize(Notify(id, stopCause, reason)) else InFinalize(Defer(id))
    {
      hide Reachable, Follows, Bound, Tells;
      var a;
      for k := 0 to |cfg.outputs|
        invariant Reachable(cfg, s) && Follows(cfg, base, s)
        invariant s.pc == InFinalize(Register(id, k, stopCause, reason))
        invariant RetriesEnd(cfg) ==> Bound(cfg, s) <= Bound(cfg, old(s))
      {
        a := Await(base);
        if !a.ok && (k == 0 || cfg.outputs[k] != "") {
          s := Go(s, InFinalize(Defer(id)));
          return false;
        }
        if cfg.outputs[k] != "" {
          s := s.(history := s.history.(registered := s.history.registered + {(id, cfg.outputs[k])}));
        }
        s := Go(s, InFinalize(Register(id, k + 1, stopCause, reason)));
      }
      a := Await(base);
      s := Go(s, InFinalize(Notify(id, stopCause, reason)));
      return true;
    }

    /** deferFinalizationAfterSuccess */
    method DeferFinalization(id: string, ghost base: System) returns (result: RunnerResult)
      requires Reachable(cfg, s) && Follows(cfg, base, s) && s.pc == InFinalize(Defer(id))
      modifies this
      ensures Onward(cfg, base, old(s), s) && Means(cfg, result, s) && result.ReturnedUnresolved?
    {
      hide Reachable, Follows, Bound, Tells;
      var a := Await(base);
      if !a.fault && id in s.cell.attempts {
        s := s.(cell := MutateCell(s.cell, id, CompleteProcess));
      }
      s := Go(s, Done(ReturnedUnresolved)).(unresolved := true);
      return ReturnedUnresolved;
    }

    /** The workload succeeded: outputs, notification, attempt, node. */
    method FinishSucceeded(id: string, stopCause: string, reason: string, ghost base: System)
      returns (result: RunnerResult)
      requires Reachable(cfg, s) && Follows(cfg, base, s) && s.pc == InFinalize(Register(id, 0, stopCause, reason))
      modifies this
      ensures Onward(cfg, base, old(s), s) && Means(cfg, result, s)
      ensures cfg.storeReliable ==>
                result.ReturnedUnresolved? || (result.ReturnedOk? && CarriesOutcome(s, Succeeded, stopCause, reason))
    {
      hide Reachable, Follows, Bound, Tells;
      var ok := RegisterNodeOutputs(id, stopCause, reason, base);
      if !ok {
        result := DeferFinalization(id, base);
        return;
      }
      var a := Await(base);
      if !a.ok {
        s := Go(s, InFinalize(Defer(id)));
        result := DeferFinalization(id, base);
        return;
      }
      s := s.(history := s.history.(notified := s.history.notified + {id}));
      s := Go(s, InFinalize(Complete(id, stopCause, reason)));
      a := Await(base);
      if !a.fault {
        s := WithAttempt(s, NewRecord(cfg, id, Completed, true, true, stopCause, reason));
      }
      s := Go(s, InFinalize(SetSucceeded(id, stopCause, reason)));
      a := Await(base);
      if a.fault {
        s := Go(s, Done(ReturnedError));
        return ReturnedError;
      }
      s := Go(WithNode(s, Terminal(s.cell.node, Succeeded, stopCause, reason)), Done(ReturnedOk));
      return ReturnedOk;
    }

    // ---- reconciling with what is on record ----

    /** repairTerminalProjection */
    method RepairTerminalProjection(node: NodeRecord, attempt: Option<AttemptRecord>, ghost base: System)
      returns (result: RunnerResult)
      requires Reachable(cfg, s) && Follows(cfg, base, s) && s.pc == InReconcile(Repair(node, attempt))
      requires node.status.IsTerminal() ==> s.cell.node.status.IsTerminal()
      requires node.status.IsTerminal() || (attempt.Some? && attempt.value.status.IsTerminal())
      modifies this
      ensures Onward(cfg, base, old(s), s) && Means(cfg, result, s)
    {
      hide Reachable, Follows, Bound, Tells;
      var a := Await(base);
      var status := node.status;
      if !node.status.IsTerminal() && attempt.Some? && attempt.value.status.IsTerminal() {
        status := NodeStatusFromAttempt(attempt.value);
        if !a.fault && !s.cell.node.status.IsTerminal() {
          s := WithNode(s, s.cell.node.(status := status, stopCause := attempt.value.stopCause,
                                        failureReason := attempt.value.failureReason,
                                        finished := attempt.value.finished, handleJSON := ""));
        }
      }
      result := if status == Failed then ReturnedError else ReturnedOk;
      s := Go(s, Done(result));
    }

    /** tryRestoreHandle and, with a handle, runFromHandle; reconcileUnresolved without. */
    method Reattach(fallbackID: string, ghost base: System) returns (result: RunnerResult)
      requires Reachable(cfg, s) && Follows(cfg, base, s) && s.pc == InReconcile(Restore(fallbackID))
      modifies this
      ensures Onward(cfg, base, old(s), s) && Means(cfg, result, s)
    {
      hide Reachable, Follows, Bound, Tells;
      var a := Await(base);
      var node := s.cell.node;
      if !a.fault && Restorable(node) && a.ok {
        s := Go(s, InObserve(Wait(node.currentAttemptID)));
        ghost var report;
        result, report := WaitAndFinalize(node.currentAttemptID, base);
      } else {
        s := Go(s, InReconcile(Unresolved(fallbackID)));
        result := ReconcileUnresolved(fallbackID, base);
      }
    }

    /** reconcileByIdentity */
    method ReconcileByIdentity(id: string, cancelRequested: bool, ghost base: System) returns (result: RunnerResult)
      requires Reachable(cfg, s) && Follows(cfg, base, s) && s.pc == InReconcile(ResolveIdentity(id, cancelRequested))
      modifies this
      ensures Onward(cfg, base, old(s), s) && Means(cfg, result, s)
    {
      hide Reachable, Follows, Bound, Tells;
      var a := Await(base);
      if a.fault {
        s := Go(s, Done(ReturnedError));
        return ReturnedError;
      }
      if a.outcome.Found? {
        s := Go(s, InReconcile(AttachPersist(id, cancelRequested)));
        result := AttachResolvedHandle(id, cancelRequested, base);
      } else {
        s := Go(s, InReconcile(Unresolved(id)));
        result := ReconcileUnresolved(id, base);
      }
    }

    /** attachResolvedHandle */
    method AttachResolvedHandle(id: string, cancelRequested: bool, ghost base: System) returns (result: RunnerResult)
      requires Reachable(cfg, s) && Follows(cfg, base, s) && s.pc == InReconcile(AttachPersist(id, cancelRequested))
      modifies this
      ensures Onward(cfg, base, old(s), s) && Means(cfg, result, s)
    {
      hide Reachable, Follows, Bound, Tells;
      var a := Await(base);
      var stored := a.persist.Durable? && !a.fault && id in s.cell.attempts;
      if !stored && !a.persist.NotPersistable? {
        s := Go(s, InReconcile(Unresolved(id)));
        result := ReconcileUnresolved(id, base);
        return;
      }
      if stored {
        s := s.(cell := PersistHandleCell(s.cell, id, a.persist.handleJSON));
      }
      s := Go(s, InReconcile(AttachCancel(id, cancelRequested)));
      a := Await(base);
      if (cancelRequested || RunReadsCanceled(s, a)) && !a.ok {
        s := Go(s, InReconcile(Unresolved(id)));
        result := ReconcileUnresolved(id, base);
        return;
      }
      s := Go(s, InObserve(Wait(id)));
      ghost var report;
      result, report := WaitAndFinalize(id, base);
    }

    /** The two reads and the decision: None leaves it to the caller to go on at `next`. */
    method ReconcileBeforeAllocation(drive: bool, ghost base: System) returns (result: Option<RunnerResult>, next: Pc)
      requires Reachable(cfg, s) && Follows(cfg, base, s) && s.pc == InReconcile(Entry(drive))
      modifies this
      ensures Onward(cfg, base, old(s), s)
      ensures result.Some? ==> Means(cfg, result.value, s)
      ensures result.None? && !drive ==> s.pc == next && next.InBind? && (next.bind.Alloc? || next.bind.ResumeReady?)
      ensures result.None? && drive ==>
                s.pc == next && next.InCancel? && (next.cancel.MarkReason? || next.cancel.CancelReason?)
    {
      hide Reachable, Follows, Bound, Tells;
      next := Off;
      var a := Await(base);
      if a.fault {
        s := Go(s, Done(ReturnedError));
        return Some(ReturnedError), next;
      }
      var node := s.cell.node;
      if drive && node.status.IsTerminal() {
        s := Go(s, Done(ReturnedOk));
        return Some(ReturnedOk), next;
      }
      s := Go(s, InReconcile(ReadAttempt(drive, node)));
      a := Await(base);
      if a.fault {
        s := Go(s, Done(ReturnedError));
        return Some(ReturnedError), next;
      }
      var attempt := GetCurrentAttempt(s.cell);
      var decision := ClassifyReconcile(node, attempt);
      next := Dispatch(drive, node, attempt);
      s := Go(s, next);
      match decision
      case TerminalRepair =>
        var r := RepairTerminalProjection(node, attempt, base);
        return Some(r), next;
      case Reattach =>
        var r := Reattach(node.currentAttemptID, base);
        return Some(r), next;
      case ResolveByIdentity =>
        var r := ReconcileByIdentity(node.currentAttemptID, attempt.Some? && attempt.value.cancelRequested, base);
        return Some(r), next;
      case _ =>
        return None, next;
    }

    /** driveCancellation: never allocates, never submits. */
    method DriveCancellation(ghost base: System) returns (result: RunnerResult)
      requires Reachable(cfg, s) && Follows(cfg, base, s) && s.pc == InReconcile(Entry(true))
      modifies this
      ensures Onward(cfg, base, old(s), s) && Means(cfg, result, s)
    {
      hide Reachable, Follows, Bound, Tells;
      var r, next := ReconcileBeforeAllocation(true, base);
      if r.Some? {
        return r.value;
      }
      if next.cancel.MarkReason? {
        result := MarkNodeCanceledNoAttempt(base);
      } else {
        result := CancelNode(next.cancel.id, base);
      }
    }

    // ---- one realization ----

    /** Resume the current attempt or allocate the next one. */
    method ObtainAttempt(next: BindPc, ghost base: System) returns (id: Option<string>)
      requires Reachable(cfg, s) && Follows(cfg, base, s) && s.pc == InBind(next) && (next.Alloc? || next.ResumeReady?)
      modifies this
      ensures Onward(cfg, base, old(s), s)
      ensures s.pc == if id.Some? then InBind(Bind(id.value)) else Done(ReturnedError)
    {
      hide Reachable, Follows, Bound, Tells;
      var a := Await(base);
      if next.ResumeReady? {
        s := StatusWrite(s, a, Ready, InBind(Bind(next.id)));
        return if a.fault then None else Some(next.id);
      }
      if a.fault || !MayAllocate(s.cell) {
        s := Go(s, Done(ReturnedError));
        return None;
      }
      s := s.(cell := AllocateCell(s.cell, cfg.runID, cfg.nodeID));
      id := Some(s.cell.node.currentAttemptID);
      s := Go(s, InBind(Bind(id.value)));
    }

    /** Bindings and placement; None means the attempt is ready to be prepared. */
    method ResolveInputs(id: string, ghost base: System) returns (stop: Option<Option<RunnerResult>>)
      requires Reachable(cfg, s) && Follows(cfg, base, s) && s.pc == InBind(Bind(id))
      modifies this
      ensures Onward(cfg, base, old(s), s) && Leaves(cfg, stop, s, InRelease(SetStarting(id)))
    {
      hide Reachable, Follows, Bound, Tells;
      var a := Await(base);
      if cfg.bindings > 0 {
        if !a.ok {
          s := Go(s, InFail(FailUpsert(id, "input_env_key_collision", false)));
          var r := FailNode(id, "input_env_key_collision", false, base);
          return Some(r);
        }
        s := Go(s, InBind(SetBuilding(id)));
        stop := ResolveBindings(id, base);
        if stop.Some? {
          return;
        }
      } else {
        s := Go(s, InBind(Place(id)));
      }
      a := Await(base);
      if !a.ok {
        s := Go(s, InFail(FailUpsert(id, "placement_conflict", false)));
        var r := FailNode(id, "placement_conflict", false, base);
        return Some(r);
      }
      s := Go(s, InRelease(SetStarting(id)));
      return None;
    }

    method ResolveBindings(id: string, ghost base: System) returns (stop: Option<Option<RunnerResult>>)
      requires Reachable(cfg, s) && Follows(cfg, base, s) && s.pc == InBind(SetBuilding(id))
      modifies this
      ensures Onward(cfg, base, old(s), s) && Leaves(cfg, stop, s, InBind(Place(id)))
    {
      hide Reachable, Follows, Bound, Tells;
      var a := Await(base);
      s := StatusWrite(s, a, BuildingBindings, InBind(SetResolving(id)));
      if a.fault {
        return Some(Some(ReturnedError));
      }
      a := Await(base);
      s := StatusWrite(s, a, ResolvingInputs, InBind(BindPc.ResolveInputs(id, 0)));
      if a.fault {
        return Some(Some(ReturnedError));
      }
      stop := ResolveEachBinding(id, base);
    }

    /** The loop over the bindings: the first one that cannot be resolved fails the attempt. */
    method ResolveEachBinding(id: string, ghost base: System) returns (stop: Option<Option<RunnerResult>>)
      requires Reachable(cfg, s) && Follows(cfg, base, s) && s.pc == InBind(BindPc.ResolveInputs(id, 0))
      modifies this
      ensures Onward(cfg, base, old(s), s) && Leaves(cfg, stop, s, InBind(Place(id)))
    {
      hide Reachable, Follows, Bound, Tells;
      var a;
      for k := 0 to cfg.bindings
        invariant Reachable(cfg, s) && Follows(cfg, base, s) && s.pc == InBind(BindPc.ResolveInputs(id, k))
        invariant RetriesEnd(cfg) ==> Bound(cfg, s) <= Bound(cfg, old(s))
      {
        a := Await(base);
        if !a.ok {
          s := Go(s, InFail(FailUpsert(id, a.reason, false)));
          var r := FailNode(id, a.reason, false, base);
          return Some(r);
        }
        s := Go(s, InBind(BindPc.ResolveInputs(id, k + 1)));
      }
      a := Await(base);
      s := Go(s, InBind(Place(id)));
      return None;
    }

    /** Prepare, release and open the fence; None means StartNode comes next. */
    method Release(id: string, ghost base: System) returns (stop: Option<Option<RunnerResult>>)
      requires Reachable(cfg, s) && Follows(cfg, base, s) && s.pc == InRelease(SetStarting(id))
      modifies this
      ensures Onward(cfg, base, old(s), s) && Leaves(cfg, stop, s, InSubmit(Start(id)))
    {
      hide Reachable, Follows, Bound, Tells;
      var a := Await(base);
      s := StatusWrite(s, a, Starting, InRelease(Prepare(id)));
      if a.fault {
        return Some(Some(ReturnedError));
      }
      a := Await(base);
      if !a.ok {
        s := Go(s, InFail(FailUpsert(id, "backend_prepare_error", true)));
        var r := FailNode(id, "backend_prepare_error", true, base);
        return Some(r);
      }
      s := Go(s, InRelease(SetReleasing(id)));
      a := Await(base);
      s := StatusWrite(s, a, Releasing, InRelease(Budget(id)));
      if a.fault {
        return Some(Some(ReturnedError));
      }
      stop := OpenFence(id, base);
    }

    method OpenFence(id: string, ghost base: System) returns (stop: Option<Option<RunnerResult>>)
      requires Reachable(cfg, s) && Follows(cfg, base, s) && s.pc == InRelease(Budget(id))
      modifies this
      ensures Onward(cfg, base, old(s), s) && Leaves(cfg, stop, s, InSubmit(Start(id)))
    {
      hide Reachable, Follows, Bound, Tells;
      var a := Await(base);
      if a.fault {
        s := Go(s, Done(ReturnedError));
        return Some(Some(ReturnedError));
      }
      if |OpenedOpportunities(s.cell)| >= EffectiveMaxAttempts(cfg.maxAttempts) {
        s := Go(s, InFail(BudgetUpsert(id)));
        var r := ExhaustBudget(id, base);
        return Some(Some(r));
      }
      s := Go(s, InRelease(Open(id)));
      a := Await(base);
      if a.fault || !MayOpen(s.cell, id) {
        s := Go(s, InFail(FailUpsert(id, "submission_fence_persist_error", true)));
        var r := FailNode(id, "submission_fence_persist_error", true, base);
        return Some(r);
      }
      s := Go(s.(cell := OpenCell(s.cell, id), history := s.history.(fenced := s.history.fenced + [id])),
              InSubmit(Start(id)));
      return None;
    }

    method ExhaustBudget(id: string, ghost base: System) returns (result: RunnerResult)
      requires Reachable(cfg, s) && Follows(cfg, base, s) && s.pc == InFail(BudgetUpsert(id))
      modifies this
      ensures Onward(cfg, base, old(s), s) && Means(cfg, result, s)
    {
      hide Reachable, Follows, Bound, Tells;
      var a := Await(base);
      if !a.fault {
        s := WithAttempt(s, NewRecord(cfg, id, Errored, true, true, "failed", "attempt_budget_exhausted"));
      }
      s := Go(s, InFail(FailPc.TerminalizeFailed(id, "failed", "attempt_budget_exhausted")));
      result := TerminalizeFailed(id, "failed", "attempt_budget_exhausted", base);
    }

    /** StartNode and what follows it. */
    method Submit(id: string, ghost base: System) returns (result: RunnerResult)
      requires Reachable(cfg, s) && Follows(cfg, base, s) && s.pc == InSubmit(Start(id))
      modifies this
      ensures Onward(cfg, base, old(s), s) && Means(cfg, result, s)
    {
      hide Reachable, Follows, Bound, Tells;
      var a := Await(base);
      s := s.(history := s.history.(started := s.history.started + [id]));
      if !a.ok {
        s := Go(s, InReconcile(Unresolved(id)));
        result := ReconcileUnresolved(id, base);
        return;
      }
      s := Go(s, InSubmit(PersistHandle(id)));
      result := RecordStarted(id, base);
    }

    /** The handle, the Started record, which drops the fence, and the Running status. */
    method RecordStarted(id: string, ghost base: System) returns (result: RunnerResult)
      requires Reachable(cfg, s) && Follows(cfg, base, s) && s.pc == InSubmit(PersistHandle(id))
      modifies this
      ensures Onward(cfg, base, old(s), s) && Means(cfg, result, s)
    {
      hide Reachable, Follows, Bound, Tells;
      var a := Await(base);
      if a.persist.Durable? && id in s.cell.attempts {
        s := s.(cell := PersistHandleCell(s.cell, id, a.persist.handleJSON));
      }
      s := Go(s, InSubmit(MarkStarted(id)));
      result := MarkStartedAndRunning(id, base);
    }

    method MarkStartedAndRunning(id: string, ghost base: System) returns (result: RunnerResult)
      requires Reachable(cfg, s) && Follows(cfg, base, s) && s.pc == InSubmit(MarkStarted(id))
      modifies this
      ensures Onward(cfg, base, old(s), s) && Means(cfg, result, s)
    {
      hide Reachable, Follows, Bound, Tells;
      var a := Await(base);
      if !a.fault {
        s := WithAttempt(s, NewRecord(cfg, id, AttemptStatus.Started, true, false, "", ""));
      }
      s := Go(s, InSubmit(SetRunning(id)));
      a := Await(base);
      s := StatusWrite(s, a, Running, InObserve(Wait(id)));
      if a.fault {
        return ReturnedError;
      }
      ghost var report;
      result, report := WaitAndFinalize(id, base);
    }

    /** runAttemptBody: None is errNodeRetry. */
    method RunAttemptBody(ghost base: System) returns (result: Option<RunnerResult>)
      requires Reachable(cfg, s) && Follows(cfg, base, s) && s.pc == InReconcile(Entry(false))
      modifies this
      ensures Onward(cfg, base, old(s), s)
      ensures if result.Some? then Means(cfg, result.value, s) else s.pc == InReconcile(Entry(false))
    {
      hide Reachable, Follows, Bound, Tells, StepRunner;
      var next;
      result, next := ReconcileBeforeAllocation(false, base);
      if result.Some? {
        return;
      }
      var id := ObtainAttempt(next.bind, base);
      if id.None? {
        return Some(ReturnedError);
      }
      var stop := ResolveInputs(id.value, base);
      if stop.Some? {
        return stop.value;
      }
      stop := Release(id.value, base);
      if stop.Some? {
        return stop.value;
      }
      var r := Submit(id.value, base);
      return Some(r);
    }

    /** Any number of rounds of RunE's loop, whatever the store does: None if none of them returned. */
    method Rounds(n: nat) returns (result: Option<RunnerResult>)
      requires Reachable(cfg, s) && s.pc == InReconcile(Entry(false))
      modifies this
      ensures Follows(cfg, old(s), s) && Reachable(cfg, s)
      ensures if result.Some? then Means(cfg, result.value, s) else s.pc == InReconcile(Entry(false))
      ensures cfg.handleDurable ==> |s.history.started| <= 1
    {
      hide Reachable, Follows, Bound, Tells;
      ghost var base := s;
      FollowsItself(cfg, s);
      result := None;
      for i := 0 to n
        invariant Reachable(cfg, s) && Follows(cfg, base, s)
        invariant if result.Some? then Means(cfg, result.value, s) else s.pc == InReconcile(Entry(false))
      {
        if result.Some? {
          break;
        }
        result := RunAttemptBody(base);
      }
      if cfg.handleDurable {
        ProtocolSafety.SubmittedAtMostOnce(cfg, s);
      }
    }

    /** RunE, whenever retries end at all: it returns, having issued StartNode at most once in the
      * whole life of the node if handles are durable. */
    method RunE() returns (result: RunnerResult)
      requires Reachable(cfg, s) && s.pc == InReconcile(Entry(false)) && RetriesEnd(cfg)
      modifies this
      ensures Follows(cfg, old(s), s) && Reachable(cfg, s) && Means(cfg, result, s)
      ensures cfg.handleDurable ==> |s.history.started| <= 1
    {
      hide Reachable, Follows, Bound, Tells;
      ghost var base := s;
      FollowsItself(cfg, s);
      var r: Option<RunnerResult> := None;
      while r.None?
        invariant Reachable(cfg, s) && Follows(cfg, base, s)
        invariant if r.Some? then Means(cfg, r.value, s) else s.pc == InReconcile(Entry(false))
        decreases r.None?, Bound(cfg, s)
      {
        r := RunAttemptBody(base);
      }
      result := r.value;
      if cfg.handleDurable {
        ProtocolSafety.SubmittedAtMostOnce(cfg, s);
      }
    }
  }

  /** The node has ended like this. */
  predicate CarriesOutcome(s: System, status: NodeStatus, stopCause: string, reason: string) {
    s.cell.node.status == status && s.cell.node.stopCause == stopCause && s.cell.node.failureReason == reason
  }

  /** What becomes of WaitNode's answer, whatever else happens meanwhile: a reported failure is an
    * error and a node that failed with it, or a cancellation; a reported success is nil and a
    * node that succeeded with it, or is left to be finalized later. */
  predicate Records(report: WaitAnswer, result: RunnerResult, s: System) {
    match report
    case WaitError => result.ReturnedUnresolved? || (result.ReturnedOk? && s.cell.node.status.Canceled?)
    case WaitFailed(cause, why) =>
      if result.ReturnedError? then
        CarriesOutcome(s, Failed, if cause != "" then cause else "failed",
                       if TrimSpace(why) != "" then TrimSpace(why) else "node_execution_failed")
      else result.ReturnedOk? && s.cell.node.status.Canceled?
    case WaitSucceeded(cause, reason) =>
      || result.ReturnedUnresolved?
      || (result.ReturnedOk? && CarriesOutcome(s, Succeeded, if cause != "" then cause else "finished", reason))
  }

  /** A part of the body ends at `next`, or where FailNode left the runner. */
  ghost predicate Leaves(cfg: Config, stop: Option<Option<RunnerResult>>, s: System, next: Pc) {
    if stop.None? then s.pc == next
    else if stop.value.Some? then Means(cfg, stop.value.value, s)
    else s.pc == InReconcile(Entry(false))
  }

  lemma AlwaysAdmissible(cfg: Config, s: System)
    ensures Admissible(cfg, s, Step(ANSWER))
  {
  }
}
