/** The pure decisions of the recovery path: pkg/executor/reconcile.go and the
  * projection rule of executor.go.
  */
module Reconcile {
  import opened Spec

  datatype Decision = Fresh | ResumePreFence | Reattach | ResolveByIdentity | TerminalRepair

  function ClassifyReconcile(node: NodeRecord, attempt: Option<AttemptRecord>): Decision {
    if node.status.IsTerminal() then TerminalRepair
    else if attempt.Some? && attempt.value.status.IsTerminal() then
      if attempt.value.reattemptable && !attempt.value.fenceOpened then Fresh else TerminalRepair
    else if node.handleJSON != "" || (attempt.Some? && attempt.value.handleJSON != "") then Reattach
    else if attempt.None? || node.currentAttemptID == "" then Fresh
    else if attempt.value.fenceOpened then ResolveByIdentity
    else ResumePreFence
  }

  function NodeStatusFromAttempt(attempt: AttemptRecord): NodeStatus {
    if attempt.stopCause == "canceled" then Canceled
    else if attempt.status == Completed then Succeeded
    else Failed
  }

  /** The decisions under which a runner may go on to submit a workload. */
  predicate MaySubmit(d: Decision) {
    d.Fresh? || d.ResumePreFence?
  }
}
