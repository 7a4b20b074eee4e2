/** Records and statuses of pkg/spec/types.go.
  *
  * A timestamp is kept as the fact whether it is set: the protocol never compares
  * two of them. Event records, bottleneck strings and observations are left out.
  */
module Spec {

  datatype Option<+T> = None | Some(value: T)

  const HOSTNAME := "kubernetes.io/hostname"
  const USER_LABEL_PREFIX := "user.jumi.io/"

  datatype RunStatus =
    | RunAccepted | RunAdmitted | RunRunning
    | RunSucceeded | RunFailed | RunCanceled
  {
    predicate IsTerminal() {
      RunSucceeded? || RunFailed? || RunCanceled?
    }
  }

  datatype NodeStatus =
    | Pending | Ready | BuildingBindings | ResolvingInputs
    | Releasing | Starting | Running
    | Succeeded | Failed | Canceled | Skipped
  {
    predicate IsTerminal() {
      Succeeded? || Failed? || Canceled? || Skipped?
    }
  }

  datatype AttemptStatus = Prepared | Started | Completed | Errored
  {
    predicate IsTerminal() {
      Completed? || Errored?
    }
  }

  datatype RunRecord = RunRecord(
    runID: string,
    status: RunStatus,
    acceptedAt: int,
    finished: bool,
    stopCause: string,
    failureReason: string)

  datatype NodeRecord = NodeRecord(
    runID: string,
    nodeID: string,
    status: NodeStatus,
    stopCause: string,
    failureReason: string,
    attemptCount: nat,
    realizationCount: nat,
    currentAttemptID: string,
    handleJSON: string,
    started: bool,
    finished: bool)

  datatype AttemptRecord = AttemptRecord(
    runID: string,
    nodeID: string,
    attemptID: string,
    status: AttemptStatus,
    started: bool,
    finished: bool,
    stopCause: string,
    failureReason: string,
    handleJSON: string,
    fenceOpened: bool,
    cancelRequested: bool,
    cancelReason: string,
    processCompleted: bool,
    reattemptable: bool)

  /** A record literal that sets only the leading fields: every durable fact is reset. */
  function BareAttempt(runID: string, nodeID: string, attemptID: string, status: AttemptStatus,
                       started: bool, finished: bool, stopCause: string, failureReason: string): AttemptRecord
  {
    AttemptRecord(runID, nodeID, attemptID, status, started, finished, stopCause, failureReason,
                  "", false, false, "", false, false)
  }

  /** The node record CreateRun receives for a freshly accepted run. */
  function FreshNode(runID: string, nodeID: string): NodeRecord {
    NodeRecord(runID, nodeID, Pending, "", "", 0, 0, "", "", false, false)
  }

  function FirstNonEmpty(a: string, b: string): string {
    if a != "" then a else b
  }
}
