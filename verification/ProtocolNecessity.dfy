/** Durable handles are exactly what at-most-once submission rests on: without them a crash
  * after the Started write leaves an attempt that looks as if it had never been submitted,
  * and the restarted runner submits it again, whatever the attempt budget.
  */
module ProtocolNecessity {
  import opened Spec
  import opened Store
  import opened Protocol
  import opened ProtocolSafety

  /** The backend accepts everything; the handle is not stored. */
  const GOOD := Answer(false, true, false, "", NotPersistable, AbsentNow, WaitError)

  lemma Happens(cfg: Config, s: System, e: Event) returns (t: System)
    requires Reachable(cfg, s) && Admissible(cfg, s, e)
    ensures t == Next(cfg, s, e) && Reachable(cfg, t)
  {
    t := Next(cfg, s, e);
    OneMore(cfg, s, e);
  }

  lemma Good(cfg: Config, s: System) returns (t: System)
    requires Reachable(cfg, s) && (s.pc.InSubmit? ==> !cfg.handleDurable)
    ensures t == StepRunner(cfg, s, GOOD) && Reachable(cfg, t)
  {
    t := Next(cfg, s, Step(GOOD));
    OneMore(cfg, s, Step(GOOD));
  }

  /** A current attempt with nothing on record that speaks of a submission. */
  predicate LooksUnsubmitted(c: Cell, id: string) {
    && c.node.currentAttemptID == id && id in c.attempts && id != ""
    && c.node.handleJSON == ""
    && forall k | k in c.attempts :: !c.attempts[k].fenceOpened && c.attempts[k].handleJSON == ""
  }

  lemma {:induction false} ResolvesInputs(cfg: Config, s: System, id: string, k: nat) returns (t: System)
    requires Reachable(cfg, s) && s.pc == InBind(ResolveInputs(id, k))
    ensures Reachable(cfg, t) && t == s.(pc := InBind(Place(id)))
    decreases if k < cfg.bindings then cfg.bindings - k else 0
  {
    hide Reachable, StepReconcile, StepRelease, StepSubmit, StepObserve, StepFinalizeNode, StepFail, StepRetry,
      StepCancel;
    t := Good(cfg, s);
    if k < cfg.bindings {
      t := ResolvesInputs(cfg, t, id, k + 1);
    }
  }

  /** From the choice of an attempt to the write of its inputs. */
  lemma BindsInputs(cfg: Config, s: System, id: string) returns (t: System)
    requires Reachable(cfg, s)
    requires s.pc == InBind(Bind(id)) && LooksUnsubmitted(s.cell, id)
    ensures Reachable(cfg, t) && t.pc == InRelease(SetStarting(id)) && LooksUnsubmitted(t.cell, id)
    ensures t == WithNode(s, s.cell.node.(status := t.cell.node.status)).(pc := t.pc)
  {
    hide Reachable, StepReconcile, StepRelease, StepSubmit, StepObserve, StepFinalizeNode, StepFail, StepRetry,
      StepCancel;
    t := Good(cfg, s);
    if cfg.bindings > 0 {
      t := Good(cfg, t);
      t := Good(cfg, t);
      t := ResolvesInputs(cfg, t, id, 0);
    }
    t := Good(cfg, t);
  }

  /** ... through the release ... */
  lemma Releases(cfg: Config, s: System, id: string) returns (t: System)
    requires Reachable(cfg, s)
    requires s.pc == InRelease(SetStarting(id)) && LooksUnsubmitted(s.cell, id)
    ensures Reachable(cfg, t) && t.pc == InRelease(Budget(id)) && LooksUnsubmitted(t.cell, id)
    ensures t.cell.node.status == Releasing
    ensures t.cell.attempts == s.cell.attempts && t.history == s.history && t.run == s.run && t.exec == s.exec
  {
    hide Reachable, StepReconcile, StepBind, StepSubmit, StepObserve, StepFinalizeNode, StepFail, StepRetry,
      StepCancel, OpenedOpportunities;
    t := Good(cfg, s);
    t := Good(cfg, t);
    t := Good(cfg, t);
  }

  /** ... to an open submission fence ... */
  lemma OpensFence(cfg: Config, s: System, id: string) returns (t: System)
    requires Reachable(cfg, s)
    requires s.pc == InRelease(Budget(id)) && LooksUnsubmitted(s.cell, id)
    ensures Reachable(cfg, t) && t.pc == InSubmit(Start(id))
    ensures t.cell.node == s.cell.node.(attemptCount := s.cell.node.attemptCount + 1)
    ensures t.cell.attempts.Keys == s.cell.attempts.Keys
    ensures t.history.started == s.history.started && t.run == s.run && t.exec == s.exec
  {
    hide Reachable, StepReconcile, StepBind, StepSubmit, StepObserve, StepFinalizeNode, StepFail, StepRetry,
      StepCancel;
    assert OpenedOpportunities(s.cell) == {};
    t := Good(cfg, s);
    t := Good(cfg, t);
  }

  /** ... to a submitted attempt whose fence the Started write has dropped. */
  lemma SubmitsAndForgets(cfg: Config, s: System, id: string) returns (t: System)
    requires Reachable(cfg, s) && !cfg.handleDurable
    requires s.pc == InSubmit(Start(id)) && id != ""
    requires s.cell.node.currentAttemptID == id && s.cell.node.handleJSON == "" && !s.cell.node.status.IsTerminal()
    requires s.cell.attempts.Keys == {id}
    ensures Reachable(cfg, t) && LooksUnsubmitted(t.cell, id) && t.cell.attempts.Keys == {id}
    ensures !t.cell.attempts[id].status.IsTerminal() && !t.cell.node.status.IsTerminal()
    ensures t.history.started == s.history.started + [id] && t.run == s.run && t.exec == s.exec
  {
    hide Reachable, StepReconcile, StepBind, StepRelease, StepObserve, StepFinalizeNode, StepFail, StepRetry,
      StepCancel;
    t := Good(cfg, s);
    t := Good(cfg, t);
    t := Good(cfg, t);
  }

  lemma InitIsReachable(cfg: Config)
    ensures Reachable(cfg, Init(cfg))
  {
    hide Init;
    assert AdmissibleRun(cfg, Init(cfg), []) && Execute(cfg, Init(cfg), []) == Init(cfg);
  }

  /** The run is admitted and its graph started. */
  lemma Launches(cfg: Config) returns (t: System)
    ensures Reachable(cfg, t) && t.pc == InReconcile(Entry(false)) && t.exec == Graph
    ensures t.cell == Init(cfg).cell && t.history == Init(cfg).history && t.run.status == RunRunning
  {
    var s := Init(cfg);
    InitIsReachable(cfg);
    hide Reachable, StepRunner, StepFinalizeRun, StepCancelCall;
    t := Happens(cfg, s, Admit(false));
    t := Happens(cfg, t, GraphStart(true, false));
    t := Happens(cfg, t, StartRunner);
  }

  lemma Allocates(cfg: Config, s: System) returns (t: System, id: string)
    requires Reachable(cfg, s)
    requires s.pc == InReconcile(Entry(false)) && s.cell == Init(cfg).cell && s.history == Init(cfg).history
    ensures Reachable(cfg, t) && t.pc == InBind(Bind(id)) && LooksUnsubmitted(t.cell, id)
    ensures t.cell.attempts.Keys == {id} && t.history.started == [] && t.run == s.run && t.exec == s.exec
    ensures t.cell.attempts[id].attemptID == id && t.cell.attempts[id].status == Prepared
    ensures t.cell.node.realizationCount == 1
  {
    hide Reachable, StepRelease, StepSubmit, StepObserve, StepFinalizeNode, StepFail, StepRetry, StepCancel;
    t := Good(cfg, s);
    t := Good(cfg, t);
    t := Good(cfg, t);
    id := t.cell.node.currentAttemptID;
  }

  /** The process dies, comes back and takes the run up again. */
  lemma Restarts(cfg: Config, s: System) returns (t: System)
    requires Reachable(cfg, s) && !s.run.status.IsTerminal()
    ensures Reachable(cfg, t) && t.pc == InReconcile(Entry(false))
    ensures t.exec == Graph
    ensures t.cell == s.cell && t.history == s.history && t.run == s.run.(status := RunRunning)
  {
    hide Reachable, StepRunner, StepFinalizeRun, StepCancelCall;
    t := Relaunches(cfg, s);
    t := Happens(cfg, t, GraphStart(true, false));
    t := Happens(cfg, t, StartRunner);
  }

  lemma Relaunches(cfg: Config, s: System) returns (t: System)
    requires Reachable(cfg, s) && !s.run.status.IsTerminal()
    ensures Reachable(cfg, t) && t.pc.Off? && t.exec == Launched
    ensures t.cell == s.cell && t.history == s.history && t.run == s.run
  {
    hide Reachable, StepRunner, StepFinalizeRun, StepCancelCall;
    t := Happens(cfg, s, Crash);
    t := Happens(cfg, t, Boot);
    t := Happens(cfg, t, Recover(false));
  }

  lemma Resumes(cfg: Config, s: System, id: string) returns (t: System)
    requires Reachable(cfg, s) && s.pc == InReconcile(Entry(false))
    requires LooksUnsubmitted(s.cell, id)
    requires !s.cell.attempts[id].status.IsTerminal() && !s.cell.node.status.IsTerminal()
    ensures Reachable(cfg, t) && t.pc == InBind(Bind(id)) && LooksUnsubmitted(t.cell, id)
    ensures t == WithNode(s, s.cell.node.(status := Ready)).(pc := t.pc)
  {
    hide Reachable, StepRelease, StepSubmit, StepObserve, StepFinalizeNode, StepFail, StepRetry, StepCancel;
    t := Good(cfg, s);
    t := Good(cfg, t);
    t := Good(cfg, t);
  }

  /** A schedule that submits the same attempt twice. */
  lemma SubmitsTwice(cfg: Config) returns (t: System)
    requires !cfg.handleDurable
    ensures Reachable(cfg, t) && |t.history.started| == 2
  {
    hide Reachable;
    var s := Launches(cfg);
    var id;
    s, id := Allocates(cfg, s);
    s := SubmitsOnce(cfg, s, id);
    s := Restarts(cfg, s);
    s := Resumes(cfg, s, id);
    t := SubmitsOnce(cfg, s, id);
  }

  lemma SubmitsOnce(cfg: Config, s: System, id: string) returns (t: System)
    requires Reachable(cfg, s) && !cfg.handleDurable
    requires s.pc == InBind(Bind(id)) && LooksUnsubmitted(s.cell, id) && s.cell.attempts.Keys == {id}
    ensures Reachable(cfg, t) && LooksUnsubmitted(t.cell, id) && t.cell.attempts.Keys == {id}
    ensures !t.cell.attempts[id].status.IsTerminal() && !t.cell.node.status.IsTerminal()
    ensures t.history.started == s.history.started + [id] && t.run == s.run && t.exec == s.exec
  {
    hide Reachable;
    t := BindsInputs(cfg, s, id);
    t := Releases(cfg, t, id);
    t := OpensFence(cfg, t, id);
    t := SubmitsAndForgets(cfg, t, id);
  }

  /** StartNode is issued at most once in every run if and only if started handles are
    * durable, for every attempt budget, ceiling and set of outputs. */
  lemma AtMostOnceExactlyWhenHandlesAreDurable(cfg: Config)
    ensures (forall s | Reachable(cfg, s) :: |s.history.started| <= 1) <==> cfg.handleDurable
  {
    if cfg.handleDurable {
      forall s | Reachable(cfg, s)
        ensures |s.history.started| <= 1
      {
        SubmittedAtMostOnce(cfg, s);
      }
    } else {
      var t := SubmitsTwice(cfg);
    }
  }
}
