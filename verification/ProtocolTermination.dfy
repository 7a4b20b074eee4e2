/** RunE's unbounded retry loop ends exactly when the store is reliable or the ceiling grants
  * no second realization: then every step of the runner decreases a bound that no other
  * part of the system raises; otherwise failing writes can make the runner repeat itself.
  */
module ProtocolTermination {
  import opened Spec
  import opened AttemptId
  import opened Store
  import opened Reconcile
  import opened AttemptState
  import opened Protocol
  import opened ProtocolIdentity
  import RunFold
  import opened ProtocolNecessity

  /** Steps from WaitNode to the end of the runner. */
  function WaitRank(cfg: Config): nat { 12 + |cfg.outputs| }

  /** How far the runner is from its return if it allocates no further attempt. A loop
    * start without a current attempt ranks low: it can only allocate. */
  function Rank(cfg: Config, c: Cell, pc: Pc): nat {
    var w := WaitRank(cfg);
    var v := w + cfg.bindings;
    match pc
    case Off => 0
    case Done(_) => 0
    case InReconcile(p) =>
      (match p
       case Entry(_) => if c.node.currentAttemptID == "" then 4 else v + 17
       case ReadAttempt(_, snapshot) => if snapshot.currentAttemptID == "" then 3 else v + 16
       case Repair(_, _) => 1
       case Restore(_) => w + 1
       case ResolveIdentity(_, _) => w + 3
       case AttachPersist(_, _) => w + 2
       case AttachCancel(_, _) => w + 1
       case Unresolved(_) => 1)
    case InBind(p) =>
      (match p
       case Alloc => 1
       case ResumeReady(_) => v + 15
       case Bind(_) => v + 14
       case SetBuilding(_) => v + 13
       case SetResolving(_) => v + 12
       case ResolveInputs(_, k) => if k < cfg.bindings then v + 11 - k else w + 11
       case Place(_) => w + 10)
    case InRelease(p) =>
      (match p
       case SetStarting(_) => w + 9
       case Prepare(_) => w + 8
       case SetReleasing(_) => w + 7
       case Budget(_) => w + 6
       case Open(_) => w + 5)
    case InSubmit(p) =>
      (match p
       case Start(_) => w + 4
       case PersistHandle(_) => w + 3
       case MarkStarted(_) => w + 2
       case SetRunning(_) => w + 1)
    case InObserve(p) =>
      (match p
       case Wait(_) => w
       case FinishErrored(_, _, _) => 11
       case NoRetry(_, _, _) => 10)
    case InFinalize(p) =>
      (match p
       case Register(_, k, _, _) => if k < |cfg.outputs| then 4 + |cfg.outputs| - k else 4
       case Notify(_, _, _) => 3
       case Complete(_, _, _) => 2
       case SetSucceeded(_, _, _) => 1
       case Defer(_) => 1)
    case InFail(p) =>
      (match p
       case FailUpsert(_, _, _) => 10
       case FailCheck(_, _, _) => 9
       case FailBudget(_, _, _) => 8
       case BudgetUpsert(_) => 10
       case TerminalizeFailed(_, _, _) => 1)
    case InRetry(p) => if p.FailCurrent? then 7 else if p.FailMark? then 6 else 5
    case InCancel(p) =>
      (match p
       case CancelReason(_) => 3
       case CancelUpsert(_, _) => 2
       case CancelSet(_, _) => 1
       case MarkReason => 2
       case MarkCanceled(_) => 1)
  }

  /** Realizations still on offer. */
  function Remaining(cfg: Config, c: Cell): nat {
    if c.node.realizationCount < Cap(cfg) then Cap(cfg) - c.node.realizationCount else 0
  }

  predicate Active(s: System) { !s.pc.Off? && !s.pc.Done? }

  predicate Closer(cfg: Config, s: System, t: System) {
    || Remaining(cfg, t.cell) < Remaining(cfg, s.cell)
    || (Remaining(cfg, t.cell) == Remaining(cfg, s.cell) && Rank(cfg, t.cell, t.pc) < Rank(cfg, s.cell, s.pc))
  }

  lemma ReconcileGetsCloser(cfg: Config, s: System, pc: ReconcilePc, a: Answer)
    requires Owned(cfg, s) && s.pc == InReconcile(pc)
    ensures Closer(cfg, s, StepReconcile(cfg, s, pc, a))
  {
    hide Records, RunReadsCanceled, Restorable, NodeStatusFromAttempt, GetCurrentAttempt, Dispatch;
    if pc.ReadAttempt? {
      DispatchGetsCloser(cfg, s.cell, pc.drive, pc.snapshot);
    }
  }

  lemma DispatchGetsCloser(cfg: Config, c: Cell, drive: bool, snap: NodeRecord)
    requires Records(Cap(cfg), c) && snap.currentAttemptID == c.node.currentAttemptID && snap.handleJSON == c.node.handleJSON
    requires c.node.currentAttemptID == "" ==> c.node.handleJSON == ""
    ensures Rank(cfg, c, Dispatch(drive, snap, GetCurrentAttempt(c))) < Rank(cfg, c, InReconcile(ReadAttempt(drive, snap)))
  {
    ClassifiedOwner(Cap(cfg), c, snap);
    NoAttemptWithoutID(c);
    hide Records, ClassifyReconcile, GetCurrentAttempt, Cap;
  }

  lemma BindGetsCloser(cfg: Config, s: System, pc: BindPc, a: Answer)
    requires Owned(cfg, s) && s.pc == InBind(pc)
    ensures Closer(cfg, s, StepBind(cfg, s, pc, a))
  {
    hide Records, DeterministicAttemptID;
  }

  lemma ReleaseGetsCloser(cfg: Config, s: System, pc: ReleasePc, a: Answer)
    requires s.pc == InRelease(pc)
    ensures Closer(cfg, s, StepRelease(cfg, s, pc, a))
  {
  }

  lemma SubmitGetsCloser(cfg: Config, s: System, pc: SubmitPc, a: Answer)
    requires s.pc == InSubmit(pc)
    ensures Closer(cfg, s, StepSubmit(cfg, s, pc, a))
  {
  }

  lemma ObserveGetsCloser(cfg: Config, s: System, pc: ObservePc, a: Answer)
    requires s.pc == InObserve(pc)
    ensures Closer(cfg, s, StepObserve(cfg, s, pc, a))
  {
  }

  lemma FinalizeGetsCloser(cfg: Config, s: System, pc: FinalizePc, a: Answer)
    requires s.pc == InFinalize(pc)
    ensures Closer(cfg, s, StepFinalizeNode(cfg, s, pc, a))
  {
  }

  lemma FailGetsCloser(cfg: Config, s: System, pc: FailPc, a: Answer)
    requires s.pc == InFail(pc)
    ensures Closer(cfg, s, StepFail(cfg, s, pc, a))
  {
  }

  lemma RetryGetsCloser(cfg: Config, s: System, pc: RetryPc, a: Answer)
    requires Owned(cfg, s) && s.pc == InRetry(pc) && (a.fault ==> cfg.ceiling <= 1)
    ensures Closer(cfg, s, StepRetry(cfg, s, pc, a))
  {
  }

  lemma CancelGetsCloser(cfg: Config, s: System, pc: CancelPc, a: Answer)
    requires s.pc == InCancel(pc)
    ensures Closer(cfg, s, StepCancel(cfg, s, pc, a))
  {
  }

  lemma StepGetsCloser(cfg: Config, s: System, a: Answer)
    requires Owned(cfg, s) && Active(s) && (a.fault ==> cfg.ceiling <= 1)
    ensures Closer(cfg, s, StepRunner(cfg, s, a))
  {
    hide Owned, Closer, StepReconcile, StepBind, StepRelease, StepSubmit, StepObserve, StepFinalizeNode, StepFail,
      StepRetry, StepCancel;
    match s.pc
    case InReconcile(pc) => ReconcileGetsCloser(cfg, s, pc, a);
    case InBind(pc) => BindGetsCloser(cfg, s, pc, a);
    case InRelease(pc) => ReleaseGetsCloser(cfg, s, pc, a);
    case InSubmit(pc) => SubmitGetsCloser(cfg, s, pc, a);
    case InObserve(pc) => ObserveGetsCloser(cfg, s, pc, a);
    case InFinalize(pc) => FinalizeGetsCloser(cfg, s, pc, a);
    case InFail(pc) => FailGetsCloser(cfg, s, pc, a);
    case InRetry(pc) => RetryGetsCloser(cfg, s, pc, a);
    case InCancel(pc) => CancelGetsCloser(cfg, s, pc, a);
    case _ =>
  }

  /** The retries of a configuration come to an end. */
  predicate RetriesEnd(cfg: Config) {
    cfg.storeReliable || cfg.ceiling <= 1
  }

  function RoundLength(cfg: Config): nat { WaitRank(cfg) + cfg.bindings + 18 }

  /** An upper bound on the steps the runner still takes. */
  function Bound(cfg: Config, s: System): nat {
    if Active(s) then Remaining(cfg, s.cell) * RoundLength(cfg) + Rank(cfg, s.cell, s.pc) else 0
  }

  lemma RankBelowRound(cfg: Config, c: Cell, pc: Pc)
    ensures Rank(cfg, c, pc) < RoundLength(cfg)
    ensures !pc.Off? && !pc.Done? ==> Rank(cfg, c, pc) > 0
  {
  }

  lemma CloserLowersBound(cfg: Config, s: System, t: System)
    requires Active(s) && Closer(cfg, s, t)
    ensures Bound(cfg, t) < Bound(cfg, s)
  {
    hide Rank;
    RankBelowRound(cfg, s.cell, s.pc);
    RankBelowRound(cfg, t.cell, t.pc);
    FewerRounds(Remaining(cfg, t.cell), Remaining(cfg, s.cell), RoundLength(cfg));
    hide Remaining, RoundLength;
  }

  lemma {:induction false} FewerRounds(m: nat, n: nat, r: nat)
    ensures m < n ==> m * r + r <= n * r
    decreases n
  {
    if m + 1 < n {
      FewerRounds(m, n - 1, r);
    }
  }

  /** An event that does not start a runner. */
  predicate Continues(e: Event) {
    !e.StartRunner? && !e.Recover?
  }

  lemma OthersKeepBound(cfg: Config, s: System, e: Event)
    requires !e.Step? && Continues(e)
    ensures Bound(cfg, Next(cfg, s, e)) <= Bound(cfg, s)
  {
    OthersKeepPlace(cfg, s, e);
    hide Next;
  }

  lemma OthersKeepPlace(cfg: Config, s: System, e: Event)
    requires !e.Step? && Continues(e)
    ensures SamePlace(s, Next(cfg, s, e))
  {
    hide RunFold.Verdict, RunFold.StopCauseOf, FirstNonEmpty, Mutate;
    match e
    case CancelRun(_, _) => hide StepRun;
    case CancelNode(_, _) => hide StepRun;
    case CancelIntent(_, _, _) => hide StepRun;
    case Finalize(_, _, _, _) => FinalizeKeepsNode(cfg, s, e); hide StepRun, StepCancelCall;
    case _ => hide StepCancelCall, StepFinalizeRun;
  }

  /** Where a runner is and what its bound depends on. */
  predicate SamePlace(s: System, t: System) {
    && (t.pc == s.pc || t.pc.Off?)
    && t.cell.node.currentAttemptID == s.cell.node.currentAttemptID
    && t.cell.node.realizationCount == s.cell.node.realizationCount
  }

  function StepCount(events: seq<Event>): nat {
    if events == [] then 0
    else StepCount(events[..|events| - 1]) + if events[|events| - 1].Step? then 1 else 0
  }

  lemma {:induction false} EveryStepIsPaidFor(cfg: Config, s: System, events: seq<Event>)
    requires RetriesEnd(cfg) && Owned(cfg, s) && AdmissibleRun(cfg, s, events)
    requires forall e | e in events :: Continues(e)
    ensures var t := Execute(cfg, s, events);
            Owned(cfg, t) && (Active(t) ==> Bound(cfg, t) + StepCount(events) <= Bound(cfg, s))
    decreases |events|
  {
    hide Owned, Bound, Rank, Next;
    if events != [] {
      var last := |events| - 1;
      var e := events[last];
      EveryStepIsPaidFor(cfg, s, events[..last]);
      var t := Execute(cfg, s, events[..last]);
      NextKeepsOwned(cfg, t, e);
      OneEventIsPaidFor(cfg, t, e);
    }
  }

  lemma OneEventIsPaidFor(cfg: Config, s: System, e: Event)
    requires RetriesEnd(cfg) && Owned(cfg, s) && Admissible(cfg, s, e) && Continues(e)
    ensures var t := Next(cfg, s, e);
            Active(t) ==> Active(s) && Bound(cfg, t) + (if e.Step? then 1 else 0) <= Bound(cfg, s)
  {
    hide Owned, Bound;
    if e.Step? {
      if Active(s) {
        hide StepRunner, Closer;
        StepGetsCloser(cfg, s, e.answer);
        CloserLowersBound(cfg, s, Next(cfg, s, e));
      }
    } else {
      OthersKeepBound(cfg, s, e);
    }
  }

  /** Once it has taken `Bound` steps, whatever Cancel calls and run-level events fall in
    * between, the runner has returned. */
  lemma RunnerReturns(cfg: Config, s: System, events: seq<Event>)
    requires RetriesEnd(cfg) && Reachable(cfg, s) && AdmissibleRun(cfg, s, events)
    requires forall e | e in events :: Continues(e)
    requires StepCount(events) > Bound(cfg, s)
    ensures !Active(Execute(cfg, s, events))
  {
    hide Rank;
    ReachableNumbered(cfg, s);
    EveryStepIsPaidFor(cfg, s, events);
  }

  // ---- without reliable writes ----

  /** Some steps of the runner, and nothing else, lead from one state to another. */
  ghost predicate Leads(cfg: Config, from: System, s: System, n: nat) {
    exists events: seq<Event> ::
      && |events| == n && (forall e | e in events :: e.Step?)
      && AdmissibleRun(cfg, from, events) && Execute(cfg, from, events) == s
  }

  lemma StepOn(cfg: Config, from: System, s: System, n: nat, a: Answer) returns (t: System)
    requires Leads(cfg, from, s, n) && !s.pc.InSubmit? && (cfg.storeReliable ==> !a.fault)
    ensures t == StepRunner(cfg, s, a) && Leads(cfg, from, t, n + 1)
  {
    hide StepRunner;
    t := StepRunner(cfg, s, a);
    var events: seq<Event> :|
      && |events| == n && (forall e | e in events :: e.Step?)
      && AdmissibleRun(cfg, from, events) && Execute(cfg, from, events) == s;
    var more := events + [Step(a)];
    assert more[..|more| - 1] == events;
    assert AdmissibleRun(cfg, from, more) && Execute(cfg, from, more) == t;
  }

  lemma NoSteps(cfg: Config, s: System)
    ensures Leads(cfg, s, s, 0)
  {
    assert AdmissibleRun(cfg, s, []) && Execute(cfg, s, []) == s;
  }

  /** The runner comes back to a reachable state it was in, by its own steps alone. */
  ghost predicate CanLoop(cfg: Config) {
    exists s: System, n: nat :: n > 0 && Reachable(cfg, s) && Active(s) && Leads(cfg, s, s, n)
  }

  /** A prepared attempt about to fail its preparation. */
  predicate AboutToFail(cfg: Config, s: System, id: string) {
    && s.pc == InRelease(Prepare(id)) && LooksUnsubmitted(s.cell, id)
    && s.cell.attempts[id].attemptID == id && s.cell.attempts[id].status == Prepared
    && s.cell.node.status == NodeStatus.Starting && s.cell.node.realizationCount == 1
    && s.run.status == RunRunning
  }

  /** The failure, with every write of it lost. */
  lemma FailsUnrecorded(cfg: Config, s: System, id: string) returns (t: System, n: nat)
    requires AboutToFail(cfg, s, id) && !cfg.storeReliable && cfg.ceiling > 1
    ensures Leads(cfg, s, t, n) && n > 0 && t == s.(pc := InReconcile(Entry(false)))
  {
    hide Leads, StepRunner;
    NoSteps(cfg, s);
    t := FailsUpTo(cfg, s, id);
    t := RetriesUnrecorded(cfg, s, t, 4, id);
    n := 6;
  }

  const LOST := GOOD.(fault := true)

  lemma FailsUpTo(cfg: Config, s: System, id: string) returns (t: System)
    requires AboutToFail(cfg, s, id) && !cfg.storeReliable && cfg.ceiling > 1
    requires Leads(cfg, s, s, 0)
    ensures Leads(cfg, s, t, 4) && t == s.(pc := InRetry(FailCurrent(id)))
  {
    hide Leads, LooksUnsubmitted, StepReconcile, StepBind, StepSubmit, StepObserve, StepFinalizeNode, StepRetry,
      StepCancel;
    t := StepOn(cfg, s, s, 0, GOOD.(ok := false));
    t := StepOn(cfg, s, t, 1, LOST);
    assert t == s.(pc := InFail(FailCheck(id, "backend_prepare_error", true)));
    t := StepOn(cfg, s, t, 2, GOOD);
    t := StepOn(cfg, s, t, 3, GOOD);
  }

  lemma RetriesUnrecorded(cfg: Config, from: System, s: System, n: nat, id: string) returns (t: System)
    requires Leads(cfg, from, s, n) && s.pc == InRetry(FailCurrent(id)) && !cfg.storeReliable
    ensures Leads(cfg, from, t, n + 2) && t == s.(pc := InReconcile(Entry(false)))
  {
    hide Leads, StepReconcile, StepBind, StepRelease, StepSubmit, StepObserve, StepFinalizeNode, StepFail, StepCancel;
    t := StepOn(cfg, from, s, n, LOST);
    t := StepOn(cfg, from, t, n + 1, LOST);
  }

  lemma ResumesToBind(cfg: Config, from: System, s: System, n: nat, id: string) returns (t: System)
    requires Leads(cfg, from, s, n) && AboutToFail(cfg, s.(pc := InRelease(Prepare(id))), id)
    requires s.pc == InReconcile(Entry(false))
    ensures Leads(cfg, from, t, n + 3)
    ensures t == WithNode(s, s.cell.node.(status := Ready)).(pc := InBind(Bind(id)))
  {
    hide Leads, StepRelease, StepSubmit, StepObserve, StepFinalizeNode, StepFail, StepRetry, StepCancel;
    t := StepOn(cfg, from, s, n, GOOD);
    t := StepOn(cfg, from, t, n + 1, GOOD);
    t := StepOn(cfg, from, t, n + 2, GOOD);
  }

  lemma {:induction false} ResolvesOn(cfg: Config, from: System, s: System, n: nat, id: string, k: nat)
    returns (t: System, m: nat)
    requires Leads(cfg, from, s, n) && s.pc == InBind(ResolveInputs(id, k))
    ensures Leads(cfg, from, t, m) && m > n && t == s.(pc := InBind(Place(id)))
    decreases if k < cfg.bindings then cfg.bindings - k else 0
  {
    hide Leads, StepReconcile, StepRelease, StepSubmit, StepObserve, StepFinalizeNode, StepFail, StepRetry, StepCancel;
    t := StepOn(cfg, from, s, n, GOOD);
    m := n + 1;
    if k < cfg.bindings {
      t, m := ResolvesOn(cfg, from, t, m, id, k + 1);
    }
  }

  lemma BindsToPrepare(cfg: Config, from: System, s: System, n: nat, id: string) returns (t: System, m: nat)
    requires Leads(cfg, from, s, n) && s.pc == InBind(Bind(id))
    ensures Leads(cfg, from, t, m) && m > n
    ensures t == WithNode(s, s.cell.node.(status := NodeStatus.Starting)).(pc := InRelease(Prepare(id)))
  {
    hide Leads, StepReconcile, StepSubmit, StepObserve, StepFinalizeNode, StepFail, StepRetry, StepCancel;
    t := StepOn(cfg, from, s, n, GOOD);
    m := n + 1;
    if cfg.bindings > 0 {
      t := StepOn(cfg, from, t, m, GOOD);
      t := StepOn(cfg, from, t, m + 1, GOOD);
      t, m := ResolvesOn(cfg, from, t, m + 2, id, 0);
    }
    t := StepOn(cfg, from, t, m, GOOD);
    t := StepOn(cfg, from, t, m + 1, GOOD);
    m := m + 2;
  }

  lemma FailingWritesLoop(cfg: Config)
    requires !RetriesEnd(cfg)
    ensures CanLoop(cfg)
  {
    hide Leads, Reachable;
    var s := Launches(cfg);
    var id;
    s, id := Allocates(cfg, s);
    s := BindsInputs(cfg, s, id);
    s := Good(cfg, s);
    assert AboutToFail(cfg, s, id);
    var t, n := FailsUnrecorded(cfg, s, id);
    t := ResumesToBind(cfg, s, t, n, id);
    t, n := BindsToPrepare(cfg, s, t, n + 3, id);
    assert t == s;
  }

  lemma EndingRetriesDoNotLoop(cfg: Config)
    requires RetriesEnd(cfg)
    ensures !CanLoop(cfg)
  {
    if CanLoop(cfg) {
      var s: System, n: nat :| n > 0 && Reachable(cfg, s) && Active(s) && Leads(cfg, s, s, n);
      NoLoop(cfg, s, n);
    }
  }

  lemma NoLoop(cfg: Config, s: System, n: nat)
    requires RetriesEnd(cfg) && n > 0 && Reachable(cfg, s) && Active(s)
    ensures !Leads(cfg, s, s, n)
  {
    hide Reachable, Owned, Bound;
    if Leads(cfg, s, s, n) {
      var events: seq<Event> :|
        && |events| == n && (forall e | e in events :: e.Step?)
        && AdmissibleRun(cfg, s, events) && Execute(cfg, s, events) == s;
      ReachableNumbered(cfg, s);
      AllSteps(events);
      EveryStepIsPaidFor(cfg, s, events);
    }
  }

  lemma {:induction false} AllSteps(events: seq<Event>)
    requires forall e | e in events :: e.Step?
    ensures StepCount(events) == |events|
  {
    if events != [] {
      AllSteps(events[..|events| - 1]);
    }
  }

  /** The retry loop of RunE can run forever if and only if registry writes may fail and the
    * ceiling grants a second realization. */
  lemma LoopsExactlyOnFailingWrites(cfg: Config)
    ensures CanLoop(cfg) <==> !cfg.storeReliable && cfg.ceiling > 1
  {
    hide CanLoop;
    if RetriesEnd(cfg) {
      EndingRetriesDoNotLoop(cfg);
    } else {
      FailingWritesLoop(cfg);
    }
  }
}
