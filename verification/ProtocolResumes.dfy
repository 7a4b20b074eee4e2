/** What an undisturbed runner makes of the records it finds: which of them it returns with,
  * projects, waits for, looks up, resumes or replaces, and what a cancellation drive does instead.
  */
module ProtocolResumes {
  import opened Spec
  import opened Store
  import opened AttemptId
  import opened Reconcile
  import opened AttemptState
  import opened Protocol
  import opened ProtocolOutcomes
  import opened ProtocolStarts

  predicate HasCurrent(c: Cell) {
    c.node.currentAttemptID != "" && c.node.currentAttemptID in c.attempts
  }

  function Current(c: Cell): AttemptRecord
    requires HasCurrent(c)
  {
    c.attempts[c.node.currentAttemptID]
  }

  /** A failed attempt before its fence, left to be repeated. */
  predicate ToRepeat(c: Cell) {
    HasCurrent(c) && Current(c).status.IsTerminal() && Current(c).reattemptable && !Current(c).fenceOpened
  }

  predicate EndedAttempt(c: Cell) {
    && !c.node.status.IsTerminal()
    && HasCurrent(c) && Current(c).status.IsTerminal() && !(Current(c).reattemptable && !Current(c).fenceOpened)
  }

  predicate Unfinished(c: Cell) {
    !c.node.status.IsTerminal() && (HasCurrent(c) ==> !Current(c).status.IsTerminal())
  }

  predicate KnownHandle(c: Cell) {
    Unfinished(c) && (c.node.handleJSON != "" || (HasCurrent(c) && Current(c).handleJSON != ""))
  }

  predicate OnlyFenced(c: Cell) {
    Unfinished(c) && HasCurrent(c) && c.node.handleJSON == "" && Current(c).handleJSON == "" && Current(c).fenceOpened
  }

  predicate Unfenced(c: Cell) {
    Unfinished(c) && HasCurrent(c) && c.node.handleJSON == "" && Current(c).handleJSON == "" && !Current(c).fenceOpened
  }

  predicate Vacant(c: Cell) {
    !c.node.status.IsTerminal() && (if HasCurrent(c) then ToRepeat(c) else c.node.handleJSON == "")
  }

  /** The two reads a runner starts with, both successful, on a node that is not ended. */
  predicate Reads(s: System, drive: bool, a: Answer, b: Answer) {
    s.pc == InReconcile(Entry(drive)) && !a.fault && !b.fault
  }

  lemma TwoReads(cfg: Config, s: System, drive: bool, a: Answer, b: Answer, more: seq<Answer>)
    requires Reads(s, drive, a, b) && !(drive && s.cell.node.status.IsTerminal())
    ensures Alone(cfg, s, [a, b] + more)
            == Alone(cfg, s.(pc := Dispatch(drive, s.cell.node, GetCurrentAttempt(s.cell))), more)
  {
    AloneInParts(cfg, s, [a, b], more);
    Two(cfg, s, a, b);
    hide Alone, Dispatch, GetCurrentAttempt, StepBind, StepRelease, StepSubmit, StepObserve, StepFinalizeNode, StepFail,
      StepRetry, StepCancel;
  }

  /** The classifier tells these cases apart, and they leave nothing out. */
  lemma DecisionTable(c: Cell)
    ensures var d := ClassifyReconcile(c.node, GetCurrentAttempt(c));
            && (d.TerminalRepair? <==> c.node.status.IsTerminal() || EndedAttempt(c))
            && (d.Reattach? <==> KnownHandle(c))
            && (d.ResolveByIdentity? <==> OnlyFenced(c))
            && (d.ResumePreFence? <==> Unfenced(c))
            && (d.Fresh? <==> Vacant(c))
  {
    assert GetCurrentAttempt(c) == if HasCurrent(c) then Some(Current(c)) else None;
    hide GetCurrentAttempt;
  }

  // ---- nothing left to run ----

  /** A node that has ended is left alone; only a failed one is an error. */
  lemma EndedNodeIsLeftAlone(cfg: Config, s: System, a: Answer, b: Answer, c: Answer)
    requires Reads(s, false, a, b) && s.cell.node.status.IsTerminal()
    ensures Alone(cfg, s, [a, b] + [c])
            == s.(pc := Done(if s.cell.node.status == NodeStatus.Failed then ReturnedError else ReturnedOk))
  {
    TwoReads(cfg, s, false, a, b, [c]);
    One(cfg, s.(pc := Dispatch(false, s.cell.node, GetCurrentAttempt(s.cell))), c);
    hide Alone, GetCurrentAttempt, StepBind, StepRelease, StepSubmit, StepObserve, StepFinalizeNode, StepFail, StepRetry,
      StepCancel;
  }

  lemma EndedNodeIsNotDriven(cfg: Config, s: System, a: Answer)
    requires s.pc == InReconcile(Entry(true)) && !a.fault && s.cell.node.status.IsTerminal()
    ensures Alone(cfg, s, [a]) == s.(pc := Done(ReturnedOk))
  {
    One(cfg, s, a);
  }

  /** An ended attempt is projected onto its node: a cancellation by its stop cause, else by its
    * status. The attempt is left alone. */
  lemma EndedAttemptIsProjected(cfg: Config, s: System, drive: bool, a: Answer, b: Answer, c: Answer)
    requires Reads(s, drive, a, b) && EndedAttempt(s.cell) && !c.fault
    ensures var r := Current(s.cell);
            var st := if r.stopCause == "canceled" then Canceled else if r.status == Completed then Succeeded else Failed;
            Alone(cfg, s, [a, b] + [c])
            == s.(cell := s.cell.(node := s.cell.node.(status := st, stopCause := r.stopCause,
                                                       failureReason := r.failureReason, finished := r.finished,
                                                       handleJSON := "")),
                  pc := Done(if st == Failed then ReturnedError else ReturnedOk))
  {
    TwoReads(cfg, s, drive, a, b, [c]);
    One(cfg, s.(pc := Dispatch(drive, s.cell.node, GetCurrentAttempt(s.cell))), c);
    hide Alone, StepBind, StepRelease, StepSubmit, StepObserve, StepFinalizeNode, StepFail, StepRetry, StepCancel;
  }

  // ---- a job may exist ----

  /** A recorded handle that can be restored is waited for, with nothing changed. */
  lemma KnownHandleIsWaitedFor(cfg: Config, s: System, drive: bool, a: Answer, b: Answer, c: Answer)
    requires Reads(s, drive, a, b) && KnownHandle(s.cell) && Good(c) && s.cell.node.handleJSON != ""
    requires s.cell.node.status in {NodeStatus.Starting, Releasing, Running}
    ensures Alone(cfg, s, [a, b] + [c]) == s.(pc := InObserve(Wait(s.cell.node.currentAttemptID)))
  {
    TwoReads(cfg, s, drive, a, b, [c]);
    One(cfg, s.(pc := Dispatch(drive, s.cell.node, GetCurrentAttempt(s.cell))), c);
    hide Alone, StepBind, StepRelease, StepSubmit, StepObserve, StepFinalizeNode, StepFail, StepRetry, StepCancel;
  }

  /** One that cannot be is left unresolved. */
  lemma LostHandleDecidesNothing(cfg: Config, s: System, drive: bool, a: Answer, b: Answer, c: Answer, d: Answer)
    requires Reads(s, drive, a, b) && KnownHandle(s.cell)
    requires !Good(c) || s.cell.node.handleJSON == "" || s.cell.node.status !in {NodeStatus.Starting, Releasing, Running}
    ensures Alone(cfg, s, [a, b] + [c, d]) == GivenUp(s)
  {
    TwoReads(cfg, s, drive, a, b, [c, d]);
    Two(cfg, s.(pc := Dispatch(drive, s.cell.node, GetCurrentAttempt(s.cell))), c, d);
    hide Alone, StepBind, StepRelease, StepSubmit, StepObserve, StepFinalizeNode, StepFail, StepRetry, StepCancel;
  }

  /** With a fence and no handle the backend is asked, and anything but FOUND decides nothing. */
  lemma UnknownJobDecidesNothing(cfg: Config, s: System, drive: bool, a: Answer, b: Answer, c: Answer, d: Answer)
    requires Reads(s, drive, a, b) && OnlyFenced(s.cell) && !c.fault && !c.outcome.Found?
    ensures Alone(cfg, s, [a, b] + [c, d]) == GivenUp(s)
  {
    TwoReads(cfg, s, drive, a, b, [c, d]);
    Two(cfg, s.(pc := Dispatch(drive, s.cell.node, GetCurrentAttempt(s.cell))), c, d);
    hide Alone, StepBind, StepRelease, StepSubmit, StepObserve, StepFinalizeNode, StepFail, StepRetry, StepCancel;
  }

  /** A found job is recorded before anything else; if a cancellation was requested or the run is
    * canceled, it is waited for only after CancelNode went through. */
  lemma FoundJobIsRecordedAndCanceled(cfg: Config, s: System, drive: bool, a: Answer, b: Answer, c: Answer, d: Answer,
                                      e: Answer, f: Answer)
    requires Reads(s, drive, a, b) && OnlyFenced(s.cell) && !c.fault && c.outcome.Found? && !d.fault && d.persist.Durable?
    ensures var id := s.cell.node.currentAttemptID;
            var r := Current(s.cell);
            var t := s.(cell := Cell(s.cell.node.(handleJSON := d.persist.handleJSON),
                                     s.cell.attempts[id := r.(handleJSON := d.persist.handleJSON)]));
            var toCancel := r.cancelRequested || SeesCancellation(s, e);
            if toCancel && !e.ok then Alone(cfg, s, [a, b] + [c, d, e, f]) == GivenUp(t)
            else Alone(cfg, s, [a, b] + [c, d, e]) == t.(pc := InObserve(Wait(id)))
  {
    var u := s.(pc := Dispatch(drive, s.cell.node, GetCurrentAttempt(s.cell)));
    TwoReads(cfg, s, drive, a, b, [c, d, e]);
    TwoReads(cfg, s, drive, a, b, [c, d, e, f]);
    var id, r := s.cell.node.currentAttemptID, Current(s.cell);
    assert u.pc == InReconcile(ResolveIdentity(id, r.cancelRequested));
    hide Alone, Dispatch;
    RecordsFound(cfg, u, id, r.cancelRequested, c, d, e, f);
  }

  /** A found job whose handle the store refuses stays unresolved. */
  lemma UnrecordedJobDecidesNothing(cfg: Config, s: System, drive: bool, a: Answer, b: Answer, c: Answer, d: Answer, e: Answer)
    requires Reads(s, drive, a, b) && OnlyFenced(s.cell) && !c.fault && c.outcome.Found?
    requires d.persist.PersistFailed? || (d.persist.Durable? && d.fault)
    ensures Alone(cfg, s, [a, b] + [c, d, e]) == GivenUp(s)
  {
    var u := s.(pc := Dispatch(drive, s.cell.node, GetCurrentAttempt(s.cell)));
    TwoReads(cfg, s, drive, a, b, [c, d, e]);
    var id, r := s.cell.node.currentAttemptID, Current(s.cell);
    assert u.pc == InReconcile(ResolveIdentity(id, r.cancelRequested));
    hide Dispatch;
    Three(cfg, u, c, d, e);
    hide Alone, StepBind, StepRelease, StepSubmit, StepObserve, StepFinalizeNode, StepFail, StepRetry, StepCancel;
  }

  /** One whose handle cannot be stored at all is waited for all the same. */
  lemma JobWithoutAHandleIsWaitedFor(cfg: Config, s: System, drive: bool, a: Answer, b: Answer, c: Answer, d: Answer, e: Answer)
    requires Reads(s, drive, a, b) && OnlyFenced(s.cell) && !c.fault && c.outcome.Found? && d.persist.NotPersistable? && e.ok
    ensures Alone(cfg, s, [a, b] + [c, d, e]) == s.(pc := InObserve(Wait(s.cell.node.currentAttemptID)))
  {
    var u := s.(pc := Dispatch(drive, s.cell.node, GetCurrentAttempt(s.cell)));
    TwoReads(cfg, s, drive, a, b, [c, d, e]);
    var id, r := s.cell.node.currentAttemptID, Current(s.cell);
    assert u.pc == InReconcile(ResolveIdentity(id, r.cancelRequested));
    hide Dispatch;
    Three(cfg, u, c, d, e);
    hide Alone, StepBind, StepRelease, StepSubmit, StepObserve, StepFinalizeNode, StepFail, StepRetry, StepCancel;
  }

  lemma RecordsFound(cfg: Config, s: System, id: string, requested: bool, c: Answer, d: Answer, e: Answer, f: Answer)
    requires s.pc == InReconcile(ResolveIdentity(id, requested)) && s.cell.node.currentAttemptID == id && id in s.cell.attempts
    requires !c.fault && c.outcome.Found? && !d.fault && d.persist.Durable?
    ensures var t := s.(cell := Cell(s.cell.node.(handleJSON := d.persist.handleJSON),
                                     s.cell.attempts[id := s.cell.attempts[id].(handleJSON := d.persist.handleJSON)]));
            if (requested || SeesCancellation(s, e)) && !e.ok then Alone(cfg, s, [c, d, e, f]) == GivenUp(t)
            else Alone(cfg, s, [c, d, e]) == t.(pc := InObserve(Wait(id)))
  {
    Three(cfg, s, c, d, e);
    Four(cfg, s, c, d, e, f);
    hide Alone, StepBind, StepRelease, StepSubmit, StepObserve, StepFinalizeNode, StepFail, StepRetry, StepCancel;
  }

  // ---- no job can exist ----

  /** An attempt without a fence is resumed under its own id. */
  lemma UnfencedAttemptIsResumed(cfg: Config, s: System, a: Answer, b: Answer, c: Answer)
    requires Reads(s, false, a, b) && Unfenced(s.cell) && !c.fault
    ensures Alone(cfg, s, [a, b] + [c])
            == s.(cell := s.cell.(node := s.cell.node.(status := Ready)),
                  pc := InBind(Bind(s.cell.node.currentAttemptID)))
  {
    TwoReads(cfg, s, false, a, b, [c]);
    One(cfg, s.(pc := Dispatch(false, s.cell.node, GetCurrentAttempt(s.cell))), c);
    hide Alone, StepReconcile, StepRelease, StepSubmit, StepObserve, StepFinalizeNode, StepFail, StepRetry, StepCancel;
  }

  /** The next attempt: its id carries the number of realizations, its record is bare. */
  function NextID(cfg: Config, c: Cell): string {
    DeterministicAttemptID(cfg.runID, cfg.nodeID, c.node.realizationCount + 1)
  }

  function Allocated(cfg: Config, c: Cell): Cell {
    Cell(c.node.(status := Ready, currentAttemptID := NextID(cfg, c), started := true,
                 realizationCount := c.node.realizationCount + 1),
         c.attempts[NextID(cfg, c) := Literal(cfg, NextID(cfg, c), Prepared, true, false, "", "")])
  }

  lemma VacantNodeGetsTheNextAttempt(cfg: Config, s: System, a: Answer, b: Answer, c: Answer)
    requires Reads(s, false, a, b) && Vacant(s.cell) && !c.fault
    ensures Alone(cfg, s, [a, b] + [c]) == s.(cell := Allocated(cfg, s.cell), pc := InBind(Bind(NextID(cfg, s.cell))))
  {
    TwoReads(cfg, s, false, a, b, [c]);
    One(cfg, s.(pc := Dispatch(false, s.cell.node, GetCurrentAttempt(s.cell))), c);
    hide Alone, StepReconcile, StepRelease, StepSubmit, StepObserve, StepFinalizeNode, StepFail, StepRetry, StepCancel;
  }

  /** A cancellation drive allocates and submits nothing: the attempt the node names is recorded
    * as canceled together with the node. */
  lemma DrivenAttemptIsCanceled(cfg: Config, s: System, a: Answer, b: Answer, c: Answer, d: Answer, e: Answer)
    requires Reads(s, true, a, b) && (Unfenced(s.cell) || Vacant(s.cell)) && s.cell.node.currentAttemptID != ""
    requires !d.fault && !e.fault
    ensures Alone(cfg, s, [a, b] + [c, d, e]) == EndedCanceled(cfg, s, s.cell.node.currentAttemptID, c)
  {
    TwoReads(cfg, s, true, a, b, [c, d, e]);
    var t := s.(pc := Dispatch(true, s.cell.node, GetCurrentAttempt(s.cell)));
    assert t.pc == InCancel(CancelReason(s.cell.node.currentAttemptID));
    hide Alone, Dispatch;
    CancelsNode(cfg, t, s.cell.node.currentAttemptID, c, d, e);
  }

  lemma DrivenNodeIsCanceled(cfg: Config, s: System, a: Answer, b: Answer, c: Answer, d: Answer)
    requires Reads(s, true, a, b) && Vacant(s.cell) && s.cell.node.currentAttemptID == "" && !d.fault
    ensures Alone(cfg, s, [a, b] + [c, d])
            == s.(cell := s.cell.(node := s.cell.node.(status := Canceled, stopCause := "canceled",
                                                       failureReason := WhyCanceled(s, c), finished := true)),
                  pc := Done(ReturnedOk))
  {
    TwoReads(cfg, s, true, a, b, [c, d]);
    Two(cfg, s.(pc := Dispatch(true, s.cell.node, GetCurrentAttempt(s.cell))), c, d);
    hide Alone, StepReconcile, StepBind, StepRelease, StepSubmit, StepObserve, StepFinalizeNode, StepFail, StepRetry;
  }

  // ---- a whole life ----

  /** The node once its next attempt has been started. */
  function StartedNode(cfg: Config, node: NodeRecord, id: string, handleJSON: string): NodeRecord {
    node.(status := Running, started := true, currentAttemptID := id, attemptCount := node.attemptCount + 1,
          realizationCount := node.realizationCount + 1, handleJSON := handleJSON)
  }

  function StartedState(cfg: Config, s: System, id: string, handleJSON: string): System {
    var c := Cell(StartedNode(cfg, s.cell.node, id, handleJSON),
                  s.cell.attempts[id := Literal(cfg, id, AttemptStatus.Started, true, false, "", "")]);
    var h := s.history.(started := s.history.started + [id], fenced := s.history.fenced + [id]);
    s.(cell := c, history := h, pc := InObserve(Wait(id)))
  }

  /** The node once that attempt has succeeded. */
  function SucceededNode(cfg: Config, node: NodeRecord, id: string, cause: string, reason: string): NodeRecord {
    node.(status := Succeeded, stopCause := cause, failureReason := reason, started := true, finished := true,
          handleJSON := "", currentAttemptID := id, attemptCount := node.attemptCount + 1,
          realizationCount := node.realizationCount + 1)
  }

  function SucceededState(cfg: Config, s: System, id: string, cause: string, reason: string): System {
    var c := Cell(SucceededNode(cfg, s.cell.node, id, cause, reason),
                  s.cell.attempts[id := Literal(cfg, id, Completed, true, true, cause, reason)]);
    var h := History(s.history.started + [id], s.history.fenced + [id],
                     s.history.registered + Named(id, cfg.outputs), s.history.notified + {id});
    s.(cell := c, history := h, pc := Done(ReturnedOk))
  }

  /** Every call on the way to the wait succeeds. */
  predicate GoodStart(cfg: Config, find: seq<Answer>, bind: seq<Answer>, open: seq<Answer>, start: seq<Answer>) {
    && |find| == 3 && |bind| == BindSteps(cfg) && |open| == 6 && |start| == 4
    && AllGood(find) && AllGood(bind) && AllGood(open) && AllGood(start)
  }

  function StartAnswers(find: seq<Answer>, bind: seq<Answer>, open: seq<Answer>, start: seq<Answer>): seq<Answer> {
    find + bind + open + start
  }

  /** From a vacant node to a waiting runner: one more realization, one more opportunity, one
    * fence and one StartNode, all of the next attempt. */
  lemma StartsTheNextAttempt(cfg: Config, s: System, find: seq<Answer>, bind: seq<Answer>, open: seq<Answer>,
                             start: seq<Answer>)
    requires s.pc == InReconcile(Entry(false)) && Vacant(s.cell) && WithinBudget(cfg, s.cell)
    requires GoodStart(cfg, find, bind, open, start)
    ensures Alone(cfg, s, StartAnswers(find, bind, open, start))
            == StartedState(cfg, s, NextID(cfg, s.cell), KeptHandle(s, start[1]))
  {
    var id := NextID(cfg, s.cell);
    AloneInParts(cfg, s, find + bind + open, start);
    AloneInParts(cfg, s, find + bind, open);
    AloneInParts(cfg, s, find, bind);
    assert find == [find[0], find[1]] + [find[2]];
    VacantNodeGetsTheNextAttempt(cfg, s, find[0], find[1], find[2]);
    var t := s.(cell := Allocated(cfg, s.cell), pc := InBind(Bind(id)));
    BindsInputs(cfg, t, id, bind);
    NewAttemptHasNoFence(cfg, s.cell);
    hide Alone, Fenced, NextID;
    SubmitsBoundAttempt(cfg, s, id, Bound(cfg, t, id), open, start);
  }

  lemma SubmitsBoundAttempt(cfg: Config, s: System, id: string, t: System, open: seq<Answer>, start: seq<Answer>)
    requires t == Bound(cfg, s.(cell := Allocated(cfg, s.cell), pc := InBind(Bind(id))), id) && id == NextID(cfg, s.cell)
    requires WithinBudget(cfg, Allocated(cfg, s.cell))
    requires |open| == 6 && |start| == 4 && AllGood(open) && AllGood(start)
    ensures Alone(cfg, Alone(cfg, t, open), start) == StartedState(cfg, s, id, KeptHandle(s, start[1]))
  {
    assert Fenced(t.cell) == Fenced(Allocated(cfg, s.cell));
    OpensTheFence(cfg, t, id, open);
    var u := Alone(cfg, t, open);
    assert start == [start[0], start[1], start[2], start[3]];
    assert Good(start[0]) && Good(start[2]) && Good(start[3]);
    hide Alone, Fenced, NextID, AllGood;
    StartIsRecorded(cfg, u, id, start[0], start[1], start[2], start[3]);
    var a, r := Literal(cfg, id, Prepared, true, false, "", ""), Literal(cfg, id, AttemptStatus.Started, true, false, "", "");
    assert s.cell.attempts[id := a][id := a.(fenceOpened := true)][id := r] == s.cell.attempts[id := r];
  }

  function KeptHandle(s: System, a: Answer): string {
    if a.persist.Durable? then a.persist.handleJSON else s.cell.node.handleJSON
  }

  lemma NewAttemptHasNoFence(cfg: Config, c: Cell)
    ensures WithinBudget(cfg, c) ==> WithinBudget(cfg, Allocated(cfg, c))
  {
    var id := NextID(cfg, c);
    hide NextID;
    assert Fenced(Allocated(cfg, c)) == Fenced(c) - {id};
  }

  /** And when success is reported in the end: the node has succeeded with its attempt, every
    * named output is registered and the success notified. */
  lemma UndisturbedLife(cfg: Config, s: System, find: seq<Answer>, bind: seq<Answer>, open: seq<Answer>, start: seq<Answer>,
                        report: Answer, registered: seq<Answer>, end: seq<Answer>)
    requires s.pc == InReconcile(Entry(false)) && Vacant(s.cell) && WithinBudget(cfg, s.cell)
    requires GoodStart(cfg, find, bind, open, start) && report.wait.WaitSucceeded?
    requires AllGood(registered) && AllGood(end) && |registered| == |cfg.outputs| && |end| == 4
    ensures Alone(cfg, s, StartAnswers(find, bind, open, start) + ([report] + registered + end))
            == SucceededState(cfg, s, NextID(cfg, s.cell),
                              if report.wait.stopCause != "" then report.wait.stopCause else "finished", report.wait.reason)
  {
    AloneInParts(cfg, s, StartAnswers(find, bind, open, start), [report] + registered + end);
    StartsTheNextAttempt(cfg, s, find, bind, open, start);
    SucceedsOnReport(cfg, s, NextID(cfg, s.cell), KeptHandle(s, start[1]), report, registered, end);
    hide *;
  }

  lemma SucceedsOnReport(cfg: Config, s: System, id: string, handleJSON: string, report: Answer, registered: seq<Answer>,
                         end: seq<Answer>)
    requires report.wait.WaitSucceeded?
    requires AllGood(registered) && AllGood(end) && |registered| == |cfg.outputs| && |end| == 4
    ensures Alone(cfg, StartedState(cfg, s, id, handleJSON), [report] + registered + end)
            == SucceededState(cfg, s, id, if report.wait.stopCause != "" then report.wait.stopCause else "finished",
                              report.wait.reason)
  {
    assert end == [end[0], end[1], end[2], end[3]];
    assert Good(end[1]) && Good(end[2]) && Good(end[3]) && Accepts(cfg.outputs, registered);
    hide AllGood, Accepts, Alone, Named;
    var cause, why := report.wait.stopCause, report.wait.reason;
    var t := StartedState(cfg, s, id, handleJSON);
    SuccessIsRecorded(cfg, t, id, cause, why, report, registered, end[0], end[1], end[2], end[3]);
    var a := Literal(cfg, id, AttemptStatus.Started, true, false, "", "");
    var r := Literal(cfg, id, Completed, true, true, if cause != "" then cause else "finished", why);
    assert s.cell.attempts[id := a][id := r] == s.cell.attempts[id := r];
  }
}
