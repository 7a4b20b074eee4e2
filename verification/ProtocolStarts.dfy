/** From the first read of a runner to the wait for its job: where an undisturbed runner goes,
  * what it has written when it gets there, and what every refusal on the way leaves behind.
  */
module ProtocolStarts {
  import opened Spec
  import opened Store
  import opened Reconcile
  import opened Protocol
  import Text
  import opened ProtocolOutcomes

  /** A registry call that fails writes nothing. Handles are stored or not by their own answer. */
  lemma FailedCallsWriteNothing(cfg: Config, s: System, a: Answer)
    requires a.fault && !(s.pc.InSubmit? && s.pc.submit.PersistHandle?)
    ensures StepRunner(cfg, s, a).cell == s.cell
  {
    hide Dispatch, OpenedOpportunities, Text.TrimSpace;
  }

  /** The registry calls whose error a runner returns: its two first reads, allocation, every
    * status write, the budget, and the writes that end the node. */
  predicate ErrorIsReturned(pc: Pc) {
    match pc
    case InReconcile(p) => p.Entry? || p.ReadAttempt? || p.ResolveIdentity?
    case InBind(p) => p.Alloc? || p.ResumeReady? || p.SetBuilding? || p.SetResolving?
    case InRelease(p) => p.SetStarting? || p.SetReleasing? || p.Budget?
    case InSubmit(p) => p.SetRunning?
    case InFinalize(p) => p.SetSucceeded?
    case InFail(p) => p.TerminalizeFailed?
    case InCancel(p) => p.CancelSet?
    case _ => false
  }

  lemma FailedCallsAreReturned(cfg: Config, s: System, a: Answer)
    requires a.fault && ErrorIsReturned(s.pc)
    ensures StepRunner(cfg, s, a) == s.(pc := Done(ReturnedError))
  {
  }

  /** The registry calls whose error a runner drops: every attempt record it writes, the repair,
    * and the reset before a retry. */
  predicate ErrorIsIgnored(pc: Pc) {
    match pc
    case InReconcile(p) => p.Repair?
    case InSubmit(p) => p.MarkStarted?
    case InObserve(p) => p.FinishErrored?
    case InFinalize(p) => p.Complete? || p.Defer?
    case InFail(p) => p.FailUpsert? || p.BudgetUpsert?
    case InRetry(p) => p.FailMark? || p.Reset?
    case InCancel(p) => p.CancelUpsert? || p.MarkCanceled?
    case _ => false
  }

  /** It goes on as if the call had succeeded, with the record unchanged. */
  lemma FailedCallsAreIgnored(cfg: Config, s: System, a: Answer)
    requires a.fault && ErrorIsIgnored(s.pc)
    ensures StepRunner(cfg, s, a) == StepRunner(cfg, s, a.(fault := false)).(cell := s.cell)
  {
  }

  // ---- failing before the fence ----

  /** The refused call behind a failure before the fence: its reason, and whether another
    * realization may follow. */
  function Refusal(cfg: Config, s: System, a: Answer): Option<FailPc> {
    match s.pc
    case InBind(Bind(id)) =>
      if cfg.bindings > 0 && !a.ok then Some(FailUpsert(id, "input_env_key_collision", false)) else None
    case InBind(ResolveInputs(id, k)) =>
      if k < cfg.bindings && !a.ok then Some(FailUpsert(id, a.reason, false)) else None
    case InBind(Place(id)) =>
      if !a.ok then Some(FailUpsert(id, "placement_conflict", false)) else None
    case InRelease(Prepare(id)) =>
      if !a.ok then Some(FailUpsert(id, "backend_prepare_error", true)) else None
    case InRelease(Open(id)) =>
      if a.fault || s.cell.node.currentAttemptID != id || id !in s.cell.attempts
      then Some(FailUpsert(id, "submission_fence_persist_error", true)) else None
    case _ => None
  }

  /** Exactly the refusals lead to a failure before the fence. */
  lemma OnlyRefusalsFail(cfg: Config, s: System, a: Answer, id: string, reason: string, retryable: bool)
    requires s.pc != InFail(FailUpsert(id, reason, retryable))
    ensures Refusal(cfg, s, a) == Some(FailUpsert(id, reason, retryable))
            <==> StepRunner(cfg, s, a).pc == InFail(FailUpsert(id, reason, retryable))
    ensures Refusal(cfg, s, a).Some? ==> StepRunner(cfg, s, a) == s.(pc := InFail(Refusal(cfg, s, a).value))
  {
    if s.pc.InBind? || s.pc.InRelease? {
      hide StepReconcile, StepSubmit, StepObserve, StepFinalizeNode, StepFail, StepRetry, StepCancel;
    } else {
      OthersDoNotRefuse(cfg, s, a);
      hide StepRunner;
    }
  }

  lemma OthersDoNotRefuse(cfg: Config, s: System, a: Answer)
    requires !s.pc.InBind? && !s.pc.InRelease?
    ensures var pc := StepRunner(cfg, s, a).pc;
            pc.InFail? && pc.fail.FailUpsert? ==> pc == s.pc
  {
    hide StepBind, StepRelease, ClassifyReconcile, Text.TrimSpace;
  }

  /** The retry ceiling leaves room, and the read of the node succeeds. */
  predicate MayRetry(cfg: Config, s: System, retryable: bool, read: Answer) {
    retryable && !read.fault && s.cell.node.realizationCount < cfg.ceiling
  }

  /** Without room for a retry the refused attempt and its node have failed with the reason. */
  lemma RefusedAttemptFails(cfg: Config, s: System, id: string, reason: string, retryable: bool, refused: Answer,
                            a: Answer, b: Answer, c: Answer, d: Answer)
    requires Refusal(cfg, s, refused) == Some(FailUpsert(id, reason, retryable))
    requires !a.fault && !SeesCancellation(s, b) && !MayRetry(cfg, s, retryable, c) && !d.fault
    ensures Alone(cfg, s, [refused] + [a, b, c, d]) == EndedFailed(cfg, s, id, "failed", reason)
  {
    var t := s.(pc := InFail(FailUpsert(id, reason, retryable)));
    AtRefusal(cfg, s, refused, id, reason, retryable, [a, b, c, d]);
    Four(cfg, t, a, b, c, d);
    hide Alone, Refusal, StepReconcile, StepBind, StepRelease, StepSubmit, StepObserve, StepFinalizeNode, StepRetry, StepCancel;
  }

  lemma AtRefusal(cfg: Config, s: System, a: Answer, id: string, reason: string, retryable: bool, more: seq<Answer>)
    requires Refusal(cfg, s, a) == Some(FailUpsert(id, reason, retryable))
    ensures Alone(cfg, s, [a] + more) == Alone(cfg, s.(pc := InFail(FailUpsert(id, reason, retryable))), more)
  {
    OnlyRefusalsFail(cfg, s, a, id, reason, retryable);
    AloneInParts(cfg, s, [a], more);
    One(cfg, s, a);
    hide *;
  }

  /** In a canceled run they are canceled instead. */
  lemma RefusedAttemptIsCanceled(cfg: Config, s: System, id: string, reason: string, retryable: bool, refused: Answer,
                                 a: Answer, b: Answer, c: Answer, d: Answer, e: Answer)
    requires Refusal(cfg, s, refused) == Some(FailUpsert(id, reason, retryable))
    requires SeesCancellation(s, b) && !d.fault && !e.fault
    ensures Alone(cfg, s, [refused] + ([a, b] + [c, d, e])) == EndedCanceled(cfg, s, id, c)
  {
    var t := s.(pc := InFail(FailUpsert(id, reason, retryable)));
    AtRefusal(cfg, s, refused, id, reason, retryable, [a, b] + [c, d, e]);
    AloneInParts(cfg, t, [a, b], [c, d, e]);
    Two(cfg, t, a, b);
    RefusalFindsCancellation(cfg, t, id, a, b);
    hide Refusal, StepRunner;
    var u := Alone(cfg, t, [a, b]);
    hide Alone;
    CancelsNode(cfg, u, id, c, d, e);
    Overwritten(u.cell.attempts, s.cell.attempts, id, Literal(cfg, id, Errored, false, true, "canceled", WhyCanceled(s, c)));
  }

  lemma RefusalFindsCancellation(cfg: Config, s: System, id: string, a: Answer, b: Answer)
    requires s.pc.InFail? && s.pc.fail.FailUpsert? && s.pc.fail.id == id && SeesCancellation(s, b)
    ensures var t := StepRunner(cfg, StepRunner(cfg, s, a), b);
            && t.pc == InCancel(CancelReason(id)) && t.cell.node == s.cell.node
            && t == s.(cell := t.cell, pc := t.pc)
            && t.cell.attempts - {id} == s.cell.attempts - {id}
  {
    hide StepReconcile, StepBind, StepRelease, StepSubmit, StepObserve, StepFinalizeNode, StepRetry, StepCancel;
  }

  /** With room for one, the failed attempt may be repeated, the node is pending without an
    * attempt, and the runner starts over. */
  lemma RefusedAttemptIsRetried(cfg: Config, s: System, id: string, reason: string, refused: Answer,
                                a: Answer, b: Answer, c: Answer, d: Answer, e: Answer, f: Answer)
    requires Refusal(cfg, s, refused) == Some(FailUpsert(id, reason, true)) && id != "" && s.cell.node.currentAttemptID == id
    requires !a.fault && !SeesCancellation(s, b) && MayRetry(cfg, s, true, c) && !d.fault && !e.fault && !f.fault
    ensures Alone(cfg, s, [refused] + ([a, b, c] + [d, e, f]))
            == s.(cell := Cell(s.cell.node.(status := Pending, stopCause := "", failureReason := "", finished := false,
                                            currentAttemptID := "", handleJSON := ""),
                               s.cell.attempts[id := Literal(cfg, id, Errored, true, true, "failed", reason)
                                                     .(reattemptable := true)]),
                  pc := InReconcile(Entry(false)))
  {
    var t := s.(pc := InFail(FailUpsert(id, reason, true)));
    AtRefusal(cfg, s, refused, id, reason, true, [a, b, c] + [d, e, f]);
    AloneInParts(cfg, t, [a, b, c], [d, e, f]);
    Three(cfg, t, a, b, c);
    var r := Literal(cfg, id, Errored, true, true, "failed", reason);
    var u := s.(cell := s.cell.(attempts := s.cell.attempts[id := r]), pc := InRetry(FailCurrent(id)));
    GoesToRetry(cfg, s, id, reason, a, b, c);
    ResetsForRetry(cfg, u, id, r, d, e, f);
    hide *;
    assert s.cell.attempts[id := r][id := r.(reattemptable := true)] == s.cell.attempts[id := r.(reattemptable := true)];
  }

  lemma GoesToRetry(cfg: Config, s: System, id: string, reason: string, a: Answer, b: Answer, c: Answer)
    requires !a.fault && !SeesCancellation(s, b) && MayRetry(cfg, s, true, c)
    ensures StepRunner(cfg, StepRunner(cfg, StepRunner(cfg, s.(pc := InFail(FailUpsert(id, reason, true))), a), b), c)
            == s.(cell := s.cell.(attempts := s.cell.attempts[id := Literal(cfg, id, Errored, true, true, "failed", reason)]),
                  pc := InRetry(FailCurrent(id)))
  {
    hide StepReconcile, StepBind, StepRelease, StepSubmit, StepObserve, StepFinalizeNode, StepRetry, StepCancel;
  }

  lemma ResetsForRetry(cfg: Config, s: System, id: string, r: AttemptRecord, a: Answer, b: Answer, c: Answer)
    requires s.pc == InRetry(FailCurrent(id)) && id != "" && s.cell.node.currentAttemptID == id
    requires id in s.cell.attempts && s.cell.attempts[id] == r && r.attemptID == id && !r.fenceOpened
    requires !a.fault && !b.fault && !c.fault
    ensures Alone(cfg, s, [a, b, c])
            == s.(cell := Cell(s.cell.node.(status := Pending, stopCause := "", failureReason := "", finished := false,
                                            currentAttemptID := "", handleJSON := ""),
                               s.cell.attempts[id := r.(reattemptable := true)]),
                  pc := InReconcile(Entry(false)))
  {
    Three(cfg, s, a, b, c);
    hide Alone, StepReconcile, StepBind, StepRelease, StepSubmit, StepObserve, StepFinalizeNode, StepFail, StepCancel;
  }

  /** An exhausted budget fails the attempt and its node without a start. */
  lemma ExhaustedBudgetFails(cfg: Config, s: System, id: string, a: Answer, b: Answer, c: Answer)
    requires s.pc == InRelease(Budget(id)) && !a.fault && !b.fault && !c.fault
    requires !WithinBudget(cfg, s.cell)
    ensures Alone(cfg, s, [a, b, c]) == EndedFailed(cfg, s, id, "failed", "attempt_budget_exhausted")
  {
    Three(cfg, s, a, b, c);
    assert Fenced(s.cell) == OpenedOpportunities(s.cell);
    hide Alone, StepReconcile, StepBind, StepSubmit, StepObserve, StepFinalizeNode, StepRetry, StepCancel, OpenedOpportunities,
      Fenced;
  }

  /** The attempts that carry a fence. */
  function Fenced(c: Cell): set<string> {
    set id | id in c.attempts && c.attempts[id].fenceOpened
  }

  /** There is one opportunity at least. */
  predicate WithinBudget(cfg: Config, c: Cell) {
    |Fenced(c)| < if cfg.maxAttempts >= 1 then cfg.maxAttempts else 1
  }

  // ---- inputs, release, start ----

  predicate Good(a: Answer) {
    a.ok && !a.fault
  }

  predicate AllGood(answers: seq<Answer>) {
    forall i | 0 <= i < |answers| :: Good(answers[i])
  }

  /** The bindings are resolved one by one. */
  lemma {:induction false} ResolvesInOrder(cfg: Config, s: System, id: string, answers: seq<Answer>)
    requires s.pc == InBind(ResolveInputs(id, 0)) && AllGood(answers) && |answers| <= cfg.bindings
    ensures Alone(cfg, s, answers) == s.(pc := InBind(ResolveInputs(id, |answers|)))
    decreases |answers|
  {
    if answers != [] {
      var k := |answers| - 1;
      ResolvesInOrder(cfg, s, id, answers[..k]);
      AloneInParts(cfg, s, answers[..k], [answers[k]]);
      assert answers[..k] + [answers[k]] == answers;
      var t := s.(pc := InBind(ResolveInputs(id, k)));
      One(cfg, t, answers[k]);
      assert Good(answers[k]);
      assert StepRunner(cfg, t, answers[k]) == t.(pc := InBind(ResolveInputs(id, k + 1)));
      hide Alone, StepRunner, AllGood;
    }
  }

  /** How many answers take an attempt from its inputs to its placement. */
  function BindSteps(cfg: Config): nat {
    if cfg.bindings == 0 then 1 else 4 + cfg.bindings
  }

  function Bound(cfg: Config, s: System, id: string): System {
    s.(cell := s.cell.(node := s.cell.node.(status := if cfg.bindings == 0 then s.cell.node.status else ResolvingInputs)),
       pc := InBind(Place(id)))
  }

  /** Inputs that resolve leave nothing behind but the node's status. */
  lemma BindsInputs(cfg: Config, s: System, id: string, answers: seq<Answer>)
    requires s.pc == InBind(Bind(id)) && AllGood(answers) && |answers| == BindSteps(cfg)
    ensures Alone(cfg, s, answers) == Bound(cfg, s, id)
  {
    if cfg.bindings == 0 {
      assert answers == [answers[0]];
      One(cfg, s, answers[0]);
      hide Alone, StepReconcile, StepRelease, StepSubmit, StepObserve, StepFinalizeNode, StepFail, StepRetry, StepCancel;
    } else {
      var k := 3 + cfg.bindings;
      assert answers == [answers[0], answers[1], answers[2]] + (answers[3..k] + [answers[k]]);
      AloneInParts(cfg, s, [answers[0], answers[1], answers[2]], answers[3..k] + [answers[k]]);
      Three(cfg, s, answers[0], answers[1], answers[2]);
      StartsBinding(cfg, s, id, answers[0], answers[1], answers[2]);
      hide Alone, StepRunner;
      EndsBinding(cfg, s.(cell := s.cell.(node := s.cell.node.(status := ResolvingInputs)),
                          pc := InBind(ResolveInputs(id, 0))), id, answers[3..k], answers[k]);
    }
  }

  lemma EndsBinding(cfg: Config, s: System, id: string, each: seq<Answer>, end: Answer)
    requires s.pc == InBind(ResolveInputs(id, 0)) && AllGood(each) && |each| == cfg.bindings
    ensures Alone(cfg, s, each + [end]) == s.(pc := InBind(Place(id)))
  {
    var t := s.(pc := InBind(ResolveInputs(id, cfg.bindings)));
    ResolvesInOrder(cfg, s, id, each);
    AloneInParts(cfg, s, each, [end]);
    One(cfg, t, end);
    assert StepRunner(cfg, t, end) == s.(pc := InBind(Place(id)));
    hide Alone, StepRunner, AllGood;
  }

  lemma StartsBinding(cfg: Config, s: System, id: string, a: Answer, b: Answer, c: Answer)
    requires s.pc == InBind(Bind(id)) && cfg.bindings > 0 && Good(a) && Good(b) && Good(c)
    ensures StepRunner(cfg, StepRunner(cfg, StepRunner(cfg, s, a), b), c)
            == s.(cell := s.cell.(node := s.cell.node.(status := ResolvingInputs)), pc := InBind(ResolveInputs(id, 0)))
  {
    hide StepReconcile, StepRelease, StepSubmit, StepObserve, StepFinalizeNode, StepFail, StepRetry, StepCancel;
  }

  /** Placed, prepared, released, and within the budget: the fence is open, and nothing else has
    * changed but the status and the number of opportunities. */
  lemma OpensTheFence(cfg: Config, s: System, id: string, answers: seq<Answer>)
    requires s.pc == InBind(Place(id)) && AllGood(answers) && |answers| == 6
    requires s.cell.node.currentAttemptID == id && id in s.cell.attempts
    requires WithinBudget(cfg, s.cell)
    ensures Alone(cfg, s, answers)
            == s.(cell := Cell(s.cell.node.(status := Releasing, attemptCount := s.cell.node.attemptCount + 1),
                               s.cell.attempts[id := s.cell.attempts[id].(fenceOpened := true)]),
                  history := s.history.(fenced := s.history.fenced + [id]),
                  pc := InSubmit(Start(id)))
  {
    var some, more := answers[..4], answers[4..];
    assert answers == some + more;
    AloneInParts(cfg, s, some, more);
    assert some == [answers[0], answers[1], answers[2], answers[3]] && more == [answers[4], answers[5]];
    Four(cfg, s, answers[0], answers[1], answers[2], answers[3]);
    ReachesBudget(cfg, s, id, answers[0], answers[1], answers[2], answers[3]);
    var t := s.(cell := s.cell.(node := s.cell.node.(status := Releasing)), pc := InRelease(Budget(id)));
    Two(cfg, t, answers[4], answers[5]);
    assert Fenced(t.cell) == OpenedOpportunities(t.cell) == Fenced(s.cell);
    PassesBudget(cfg, t, id, answers[4], answers[5]);
    hide *;
  }

  lemma ReachesBudget(cfg: Config, s: System, id: string, a: Answer, b: Answer, c: Answer, d: Answer)
    requires s.pc == InBind(Place(id)) && Good(a) && Good(b) && Good(c) && Good(d)
    ensures StepRunner(cfg, StepRunner(cfg, StepRunner(cfg, StepRunner(cfg, s, a), b), c), d)
            == s.(cell := s.cell.(node := s.cell.node.(status := Releasing)), pc := InRelease(Budget(id)))
  {
    hide StepReconcile, StepSubmit, StepObserve, StepFinalizeNode, StepFail, StepRetry, StepCancel, OpenedOpportunities;
  }

  lemma PassesBudget(cfg: Config, s: System, id: string, a: Answer, b: Answer)
    requires s.pc == InRelease(Budget(id)) && Good(a) && Good(b) && s.cell.node.currentAttemptID == id && id in s.cell.attempts
    requires |OpenedOpportunities(s.cell)| < (if cfg.maxAttempts >= 1 then cfg.maxAttempts else 1)
    ensures StepRunner(cfg, StepRunner(cfg, s, a), b)
            == s.(cell := Cell(s.cell.node.(attemptCount := s.cell.node.attemptCount + 1),
                               s.cell.attempts[id := s.cell.attempts[id].(fenceOpened := true)]),
                  history := s.history.(fenced := s.history.fenced + [id]),
                  pc := InSubmit(Start(id)))
  {
    hide StepReconcile, StepBind, StepSubmit, StepObserve, StepFinalizeNode, StepFail, StepRetry, StepCancel,
      OpenedOpportunities;
  }

  /** Whether StartNode went through or not, it was issued; an error decides nothing else. */
  lemma FailedStartDecidesNothing(cfg: Config, s: System, id: string, a: Answer, b: Answer)
    requires s.pc == InSubmit(Start(id)) && !a.ok
    ensures Alone(cfg, s, [a, b]) == GivenUp(s.(history := s.history.(started := s.history.started + [id])))
  {
    Two(cfg, s, a, b);
    hide Alone, StepBind, StepRelease, StepObserve, StepFinalizeNode, StepFail, StepRetry, StepCancel;
  }

  /** A started attempt has a bare Started record; its handle survives on the node alone. */
  function OnRecord(cfg: Config, s: System, id: string, handleJSON: string): System {
    s.(cell := Cell(s.cell.node.(status := Running, handleJSON := handleJSON),
                    s.cell.attempts[id := Literal(cfg, id, AttemptStatus.Started, true, false, "", "")]),
       history := s.history.(started := s.history.started + [id]),
       pc := InObserve(Wait(id)))
  }

  lemma StartIsRecorded(cfg: Config, s: System, id: string, a: Answer, b: Answer, c: Answer, d: Answer)
    requires s.pc == InSubmit(Start(id)) && s.cell.node.currentAttemptID == id && id in s.cell.attempts
    requires a.ok && !c.fault && !d.fault
    ensures Alone(cfg, s, [a, b, c, d])
            == OnRecord(cfg, s, id, if b.persist.Durable? then b.persist.handleJSON else s.cell.node.handleJSON)
  {
    Four(cfg, s, a, b, c, d);
    hide Alone, StepReconcile, StepBind, StepRelease, StepObserve, StepFinalizeNode, StepFail, StepRetry, StepCancel;
  }
}
