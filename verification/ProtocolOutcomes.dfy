/** What an undisturbed runner makes of each answer: the records it leaves behind, word for word.
  *
  * `Alone` takes the runner's next steps with the given answers and nothing in between. The
  * states it leads to are written out here without the machine's own helpers.
  */
module ProtocolOutcomes {
  import opened Spec
  import opened Store
  import opened Protocol
  import Text

  /** The runner's next steps, with nothing else in between. */
  function Alone(cfg: Config, s: System, answers: seq<Answer>): System
    decreases |answers|
  {
    if answers == [] then s else Alone(cfg, StepRunner(cfg, s, answers[0]), answers[1..])
  }

  function Steps(answers: seq<Answer>): seq<Event> {
    seq(|answers|, i requires 0 <= i < |answers| => Step(answers[i]))
  }

  /** They are a schedule. */
  lemma {:induction false} AloneIsASchedule(cfg: Config, s: System, answers: seq<Answer>)
    ensures Execute(cfg, s, Steps(answers)) == Alone(cfg, s, answers)
    decreases |answers|
  {
    hide StepRunner;
    if answers != [] {
      var last := |answers| - 1;
      AloneIsASchedule(cfg, s, answers[..last]);
      AloneInParts(cfg, s, answers[..last], [answers[last]]);
      assert answers[..last] + [answers[last]] == answers;
      assert Steps(answers)[..last] == Steps(answers[..last]);
      hide Execute;
      One(cfg, Alone(cfg, s, answers[..last]), answers[last]);
      assert Execute(cfg, s, Steps(answers)) == Next(cfg, Execute(cfg, s, Steps(answers)[..last]), Step(answers[last])) by {
        LastStep(cfg, s, Steps(answers));
      }
    }
  }

  lemma LastStep(cfg: Config, s: System, events: seq<Event>)
    requires events != []
    ensures Execute(cfg, s, events)
            == Next(cfg, Execute(cfg, s, events[..|events| - 1]), events[|events| - 1])
  {
  }

  lemma {:induction false} AloneInParts(cfg: Config, s: System, some: seq<Answer>, more: seq<Answer>)
    ensures Alone(cfg, s, some + more) == Alone(cfg, Alone(cfg, s, some), more)
    decreases |some|
  {
    hide StepRunner;
    if some == [] {
      assert some + more == more;
    } else {
      assert (some + more)[1..] == some[1..] + more;
      AloneInParts(cfg, StepRunner(cfg, s, some[0]), some[1..], more);
    }
  }

  lemma One(cfg: Config, s: System, a: Answer)
    ensures Alone(cfg, s, [a]) == StepRunner(cfg, s, a)
  {
    hide StepRunner;
    assert [a][1..] == [];
    assert Alone(cfg, StepRunner(cfg, s, a), []) == StepRunner(cfg, s, a);
  }

  lemma Two(cfg: Config, s: System, a: Answer, b: Answer)
    ensures Alone(cfg, s, [a, b]) == StepRunner(cfg, StepRunner(cfg, s, a), b)
  {
    hide StepRunner;
    assert [a, b][1..] == [b];
    One(cfg, StepRunner(cfg, s, a), b);
  }

  lemma Three(cfg: Config, s: System, a: Answer, b: Answer, c: Answer)
    ensures Alone(cfg, s, [a, b, c]) == StepRunner(cfg, StepRunner(cfg, StepRunner(cfg, s, a), b), c)
  {
    hide StepRunner;
    assert [a, b, c][1..] == [b, c];
    Two(cfg, StepRunner(cfg, s, a), b, c);
  }

  lemma Four(cfg: Config, s: System, a: Answer, b: Answer, c: Answer, d: Answer)
    ensures Alone(cfg, s, [a, b, c, d])
            == StepRunner(cfg, StepRunner(cfg, StepRunner(cfg, StepRunner(cfg, s, a), b), c), d)
  {
    hide StepRunner;
    assert [a, b, c, d][1..] == [b, c, d];
    Three(cfg, StepRunner(cfg, s, a), b, c, d);
  }

  // ---- records, written out ----

  /** The record literal of an attempt: it has no handle, no fence, no cancellation request. */
  function Literal(cfg: Config, id: string, status: AttemptStatus, started: bool, finished: bool, stopCause: string,
                   reason: string): AttemptRecord
  {
    AttemptRecord(cfg.runID, cfg.nodeID, id, status, started, finished, stopCause, reason, "", false, false, "", false, false)
  }

  /** The attempt and its node are ended alike, and the runner has returned. */
  function Ended(cfg: Config, s: System, id: string, attempt: AttemptStatus, started: bool, node: NodeStatus,
                 stopCause: string, reason: string, result: RunnerResult): System
  {
    s.(cell := Cell(s.cell.node.(status := node, stopCause := stopCause, failureReason := reason, finished := true,
                                 handleJSON := ""),
                    s.cell.attempts[id := Literal(cfg, id, attempt, started, true, stopCause, reason)]),
       pc := Done(result))
  }

  /** The attempt and its node are canceled; `why` is what the read of the run found. */
  function EndedCanceled(cfg: Config, s: System, id: string, why: Answer): System {
    Ended(cfg, s, id, Errored, false, Canceled, "canceled", WhyCanceled(s, why), ReturnedOk)
  }

  function WhyCanceled(s: System, why: Answer): string {
    if why.fault || s.run.failureReason == "" then "cancellation_requested" else s.run.failureReason
  }

  function EndedFailed(cfg: Config, s: System, id: string, stopCause: string, reason: string): System {
    Ended(cfg, s, id, Errored, true, Failed, stopCause, reason, ReturnedError)
  }

  function GivenUp(s: System): System {
    s.(unresolved := true, pc := Done(ReturnedUnresolved))
  }

  /** The read of the run succeeds and finds it canceled. */
  predicate SeesCancellation(s: System, a: Answer) {
    !a.fault && s.run.status == RunCanceled
  }

  // ---- WaitNode's answers ----

  /** A reported failure becomes an Errored attempt and a Failed node that carry the reported
    * cause and the trimmed reason, and an error. */
  lemma FailureIsRecorded(cfg: Config, s: System, id: string, cause: string, why: string,
                          a: Answer, b: Answer, c: Answer, d: Answer)
    requires s.pc == InObserve(Wait(id)) && a.wait == WaitFailed(cause, why)
    requires !b.fault && !SeesCancellation(s, c) && !d.fault
    ensures Alone(cfg, s, [a, b, c, d])
            == EndedFailed(cfg, s, id, if cause != "" then cause else "failed",
                           if Text.TrimSpace(why) != "" then Text.TrimSpace(why) else "node_execution_failed")
  {
    Four(cfg, s, a, b, c, d);
    hide Alone, StepReconcile, StepBind, StepRelease, StepSubmit, StepFinalizeNode, StepRetry, StepCancel, Text.TrimSpace;
  }

  /** In a canceled run it becomes a cancellation with the reason of the run. */
  lemma FailureOfACanceledRun(cfg: Config, s: System, id: string, cause: string, why: string,
                              a: Answer, b: Answer, c: Answer, d: Answer, e: Answer, f: Answer)
    requires s.pc == InObserve(Wait(id)) && a.wait == WaitFailed(cause, why)
    requires SeesCancellation(s, c) && !e.fault && !f.fault
    ensures Alone(cfg, s, [a, b, c] + [d, e, f]) == EndedCanceled(cfg, s, id, d)
  {
    AloneInParts(cfg, s, [a, b, c], [d, e, f]);
    Three(cfg, s, a, b, c);
    var t := Alone(cfg, s, [a, b, c]);
    FailureFindsCancellation(cfg, s, id, a, b, c);
    CancelsNode(cfg, t, id, d, e, f);
    hide Alone, StepRunner, Text.TrimSpace;
    var r := Literal(cfg, id, Errored, false, true, "canceled", WhyCanceled(s, d));
    Overwritten(t.cell.attempts, s.cell.attempts, id, r);
  }

  lemma Overwritten(m: map<string, AttemptRecord>, n: map<string, AttemptRecord>, id: string, r: AttemptRecord)
    requires m - {id} == n - {id}
    ensures m[id := r] == n[id := r]
  {
    assert m[id := r] == (m - {id})[id := r];
    assert n[id := r] == (n - {id})[id := r];
  }

  lemma FailureFindsCancellation(cfg: Config, s: System, id: string, a: Answer, b: Answer, c: Answer)
    requires s.pc == InObserve(Wait(id)) && a.wait.WaitFailed? && SeesCancellation(s, c)
    ensures var t := StepRunner(cfg, StepRunner(cfg, StepRunner(cfg, s, a), b), c);
            && t.pc == InCancel(CancelReason(id)) && t.cell.node == s.cell.node
            && t == s.(cell := t.cell, pc := t.pc)
            && t.cell.attempts - {id} == s.cell.attempts - {id}
  {
    hide StepReconcile, StepBind, StepRelease, StepSubmit, StepFinalizeNode, StepRetry, StepCancel, Text.TrimSpace;
  }

  /** cancelNode */
  lemma CancelsNode(cfg: Config, s: System, id: string, a: Answer, b: Answer, c: Answer)
    requires s.pc == InCancel(CancelReason(id)) && !b.fault && !c.fault
    ensures Alone(cfg, s, [a, b, c]) == EndedCanceled(cfg, s, id, a)
  {
    Three(cfg, s, a, b, c);
    hide Alone, StepReconcile, StepBind, StepRelease, StepSubmit, StepObserve, StepFinalizeNode, StepFail, StepRetry;
  }

  /** Losing the backend decides nothing: unless the wait was interrupted or the run canceled,
    * no record changes and the node stays unresolved. */
  lemma LostObservationDecidesNothing(cfg: Config, s: System, id: string, a: Answer, b: Answer)
    requires s.pc == InObserve(Wait(id)) && a.wait.WaitError? && !a.contextDone && !SeesCancellation(s, a)
    ensures Alone(cfg, s, [a, b]) == GivenUp(s)
  {
    Two(cfg, s, a, b);
    hide Alone, StepBind, StepRelease, StepSubmit, StepFinalizeNode, StepFail, StepRetry, StepCancel;
  }

  lemma InterruptedWaitCancels(cfg: Config, s: System, id: string, a: Answer, b: Answer, c: Answer, d: Answer)
    requires s.pc == InObserve(Wait(id)) && a.wait.WaitError? && (a.contextDone || SeesCancellation(s, a))
    requires !c.fault && !d.fault
    ensures Alone(cfg, s, [a] + [b, c, d]) == EndedCanceled(cfg, s, id, b)
  {
    AloneInParts(cfg, s, [a], [b, c, d]);
    One(cfg, s, a);
    assert StepRunner(cfg, s, a) == s.(pc := InCancel(CancelReason(id)));
    hide StepRunner;
    CancelsNode(cfg, s.(pc := InCancel(CancelReason(id))), id, b, c, d);
  }

  // ---- success ----

  /** RegisterArtifact accepts these outputs; the manifest is collected even for an unnamed first one. */
  predicate Accepts(outputs: seq<string>, answers: seq<Answer>) {
    && |answers| <= |outputs|
    && forall i | 0 <= i < |answers| :: answers[i].ok || (i > 0 && outputs[i] == "")
  }

  function Named(id: string, outputs: seq<string>): set<(string, string)> {
    set o | o in outputs && o != "" :: (id, o)
  }

  /** Outputs are registered in order, each named one under the attempt's id. */
  lemma {:induction false} RegistersInOrder(cfg: Config, s: System, id: string, cause: string, why: string, answers: seq<Answer>)
    requires s.pc == InFinalize(Register(id, 0, cause, why)) && Accepts(cfg.outputs, answers)
    ensures Alone(cfg, s, answers)
            == s.(history := s.history.(registered := s.history.registered + Named(id, cfg.outputs[..|answers|])),
                  pc := InFinalize(Register(id, |answers|, cause, why)))
    decreases |answers|
  {
    if answers == [] {
      assert Named(id, cfg.outputs[..0]) == {};
    } else {
      var k := |answers| - 1;
      RegistersInOrder(cfg, s, id, cause, why, answers[..k]);
      AloneInParts(cfg, s, answers[..k], [answers[k]]);
      assert answers[..k] + [answers[k]] == answers;
      var t := Alone(cfg, s, answers[..k]);
      One(cfg, t, answers[k]);
      NamesOneMore(id, cfg.outputs, k);
      RegistersOne(cfg, t, id, k, cause, why, answers[k]);
      hide Alone, StepRunner, Named;
    }
  }

  lemma NamesOneMore(id: string, outputs: seq<string>, k: nat)
    requires k < |outputs|
    ensures Named(id, outputs[..k + 1])
            == Named(id, outputs[..k]) + if outputs[k] == "" then {} else {(id, outputs[k])}
  {
    assert outputs[..k + 1] == outputs[..k] + [outputs[k]];
  }

  lemma RegistersOne(cfg: Config, s: System, id: string, k: nat, cause: string, why: string, a: Answer)
    requires s.pc == InFinalize(Register(id, k, cause, why)) && k < |cfg.outputs|
    requires a.ok || (k > 0 && cfg.outputs[k] == "")
    ensures StepRunner(cfg, s, a)
            == s.(history := s.history.(registered := s.history.registered
                                                      + if cfg.outputs[k] == "" then {} else {(id, cfg.outputs[k])}),
                  pc := InFinalize(Register(id, k + 1, cause, why)))
  {
    hide StepReconcile, StepBind, StepRelease, StepSubmit, StepObserve, StepFail, StepRetry, StepCancel;
  }

  /** A reported success registers every named output, notifies, completes the attempt and then
    * the node with the reported cause and reason, and is nil. */
  lemma SuccessIsRecorded(cfg: Config, s: System, id: string, cause: string, why: string, report: Answer,
                          registered: seq<Answer>, end: Answer, notified: Answer, completed: Answer, succeeded: Answer)
    requires s.pc == InObserve(Wait(id)) && report.wait == WaitSucceeded(cause, why)
    requires |registered| == |cfg.outputs| && Accepts(cfg.outputs, registered)
    requires notified.ok && !completed.fault && !succeeded.fault
    ensures Alone(cfg, s, [report] + registered + [end, notified, completed, succeeded])
            == Ended(cfg, s.(history := s.history.(registered := s.history.registered + Named(id, cfg.outputs),
                                                   notified := s.history.notified + {id})),
                     id, Completed, true, Succeeded, if cause != "" then cause else "finished", why, ReturnedOk)
  {
    ReportsSuccess(cfg, s, id, cause, why, report, registered);
    assert cfg.outputs[..|cfg.outputs|] == cfg.outputs;
    AloneInParts(cfg, s, [report] + registered, [end, notified, completed, succeeded]);
    var t := Alone(cfg, s, [report] + registered);
    hide Alone, StepRunner, Named, Accepts;
    Finishes(cfg, t, id, if cause != "" then cause else "finished", why, end, notified, completed, succeeded);
  }

  lemma Finishes(cfg: Config, s: System, id: string, cause: string, why: string,
                 end: Answer, notified: Answer, completed: Answer, succeeded: Answer)
    requires s.pc == InFinalize(Register(id, |cfg.outputs|, cause, why))
    requires notified.ok && !completed.fault && !succeeded.fault
    ensures Alone(cfg, s, [end, notified, completed, succeeded])
            == Ended(cfg, s.(history := s.history.(notified := s.history.notified + {id})),
                     id, Completed, true, Succeeded, cause, why, ReturnedOk)
  {
    Four(cfg, s, end, notified, completed, succeeded);
    hide Alone, StepReconcile, StepBind, StepRelease, StepSubmit, StepObserve, StepFail, StepRetry, StepCancel;
  }

  lemma ReportsSuccess(cfg: Config, s: System, id: string, cause: string, why: string, report: Answer, registered: seq<Answer>)
    requires s.pc == InObserve(Wait(id)) && report.wait == WaitSucceeded(cause, why) && Accepts(cfg.outputs, registered)
    ensures Alone(cfg, s, [report] + registered)
            == s.(history := s.history.(registered := s.history.registered + Named(id, cfg.outputs[..|registered|])),
                  pc := InFinalize(Register(id, |registered|, if cause != "" then cause else "finished", why)))
  {
    var t := s.(pc := InFinalize(Register(id, 0, if cause != "" then cause else "finished", why)));
    AloneInParts(cfg, s, [report], registered);
    One(cfg, s, report);
    assert StepRunner(cfg, s, report) == t;
    hide StepRunner, Named, Accepts;
    RegistersInOrder(cfg, t, id, if cause != "" then cause else "finished", why, registered);
  }

  /** The process is over but not finalized: its completion goes on record, and nothing else. */
  function Deferred(s: System, id: string): System {
    var c := s.cell;
    GivenUp(if id in c.attempts
            then s.(cell := c.(attempts := c.attempts[id := c.attempts[id].(processCompleted := true)]))
            else s)
  }

  /** An output that cannot be registered leaves the attempt open for another finalization. */
  lemma RefusedOutputDefers(cfg: Config, s: System, id: string, cause: string, why: string, report: Answer,
                            registered: seq<Answer>, refused: Answer, recorded: Answer)
    requires s.pc == InObserve(Wait(id)) && report.wait == WaitSucceeded(cause, why) && !recorded.fault
    requires Accepts(cfg.outputs, registered) && |registered| < |cfg.outputs|
    requires !refused.ok && (|registered| == 0 || cfg.outputs[|registered|] != "")
    ensures Alone(cfg, s, [report] + registered + [refused, recorded])
            == Deferred(s.(history := s.history.(registered := s.history.registered
                                                               + Named(id, cfg.outputs[..|registered|]))), id)
  {
    ReportsSuccess(cfg, s, id, cause, why, report, registered);
    AloneInParts(cfg, s, [report] + registered, [refused, recorded]);
    var t := Alone(cfg, s, [report] + registered);
    One(cfg, t, refused);
    AloneInParts(cfg, t, [refused], [recorded]);
    assert [refused] + [recorded] == [refused, recorded];
    assert StepRunner(cfg, t, refused) == t.(pc := InFinalize(Defer(id)));
    hide Alone, StepRunner, Named, Accepts;
    Defers(cfg, t.(pc := InFinalize(Defer(id))), id, recorded);
  }

  lemma Defers(cfg: Config, s: System, id: string, recorded: Answer)
    requires s.pc == InFinalize(Defer(id)) && !recorded.fault
    ensures Alone(cfg, s, [recorded]) == Deferred(s, id)
  {
    One(cfg, s, recorded);
    hide Alone, StepReconcile, StepBind, StepRelease, StepSubmit, StepObserve, StepFail, StepRetry, StepCancel;
  }

  /** So does a refused notification. */
  lemma RefusedNotificationDefers(cfg: Config, s: System, id: string, cause: string, why: string, report: Answer,
                                  registered: seq<Answer>, end: Answer, refused: Answer, recorded: Answer)
    requires s.pc == InObserve(Wait(id)) && report.wait == WaitSucceeded(cause, why) && !recorded.fault
    requires |registered| == |cfg.outputs| && Accepts(cfg.outputs, registered) && !refused.ok
    ensures Alone(cfg, s, [report] + registered + [end, refused, recorded])
            == Deferred(s.(history := s.history.(registered := s.history.registered + Named(id, cfg.outputs))), id)
  {
    ReportsSuccess(cfg, s, id, cause, why, report, registered);
    assert cfg.outputs[..|cfg.outputs|] == cfg.outputs;
    AloneInParts(cfg, s, [report] + registered, [end, refused, recorded]);
    var t := Alone(cfg, s, [report] + registered);
    Two(cfg, t, end, refused);
    AloneInParts(cfg, t, [end, refused], [recorded]);
    assert [end, refused] + [recorded] == [end, refused, recorded];
    assert StepRunner(cfg, StepRunner(cfg, t, end), refused) == t.(pc := InFinalize(Defer(id)));
    hide Alone, StepRunner, Named, Accepts;
    Defers(cfg, t.(pc := InFinalize(Defer(id))), id, recorded);
  }
}
