/** The durable state of one node under the attempt protocol: which states keep a node from
  * ever being submitted twice, and how each durable write moves between them. The machine
  * that performs the writes is in Protocol.
  */
module AttemptState {
  import opened Spec
  import opened Store
  import opened Reconcile

  /** What has happened outside the store: the calls other systems have seen. */
  datatype History = History(
    started: seq<string>,               // attempt ids of the StartNode calls issued
    fenced: seq<string>,                // attempt ids of the successful OpenSemanticAttempt calls
    registered: set<(string, string)>,  // (attempt id, output) accepted by RegisterArtifact
    notified: set<string>)              // attempt ids whose Succeeded notification was accepted

  predicate AfterRelease(st: NodeStatus) {
    st.Releasing? || st.Running? || st.IsTerminal()
  }

  /** A submission fence was opened: for one attempt, which is still the current one, and
    * the record speaks against submitting anything else. */
  predicate FenceOnRecord(c: Cell, id: string) {
    && id != "" && c.node.currentAttemptID == id && id in c.attempts
    && !MaySubmit(ClassifyReconcile(c.node, Some(c.attempts[id])))
    && AfterRelease(c.node.status)
    && (!c.node.status.IsTerminal() && !c.attempts[id].status.IsTerminal() && c.attempts[id].handleJSON != ""
        ==> c.node.handleJSON != "")
  }

  /** No fence was ever opened: no record carries a fence or a handle. */
  predicate NothingSubmitted(c: Cell) {
    && c.node.handleJSON == ""
    && forall k | k in c.attempts :: !c.attempts[k].fenceOpened && c.attempts[k].handleJSON == ""
  }

  predicate Fences(c: Cell, h: History) {
    || (h.fenced == [] && h.started == [] && c.node.attemptCount == 0 && NothingSubmitted(c))
    || (|h.fenced| == 1 && FenceOnRecord(c, h.fenced[0]) && c.node.attemptCount == 1
        && (h.started == [] || h.started == h.fenced))
  }

  /** Attempt records sit under their own ids, the current one exists, and another
    * realization is on offer only below the ceiling. */
  predicate Records(cap: nat, c: Cell) {
    && (forall k | k in c.attempts :: c.attempts[k].attemptID == k)
    && (c.node.currentAttemptID != "" ==> c.node.currentAttemptID in c.attempts)
    && c.node.realizationCount <= cap
    && (c.node.currentAttemptID == "" ==> c.node.realizationCount < cap)
    && (c.node.currentAttemptID in c.attempts && c.attempts[c.node.currentAttemptID].reattemptable
        ==> c.node.realizationCount < cap)
  }

  /** What a runner's position claims about the durable state. */
  datatype Role =
    | Free                                             // nothing
    | Reading(snapshot: NodeRecord)                    // has read the node, not yet the attempt
    | Allocating
    | Holding(id: string, released: bool, retrying: bool)  // prepares the current attempt, no fence yet
    | Marking(id: string, current: AttemptRecord)      // about to write back the attempt it has read
    | Opening(id: string)                              // fence open, StartNode next
    | Issued(id: string)                               // fence open, handle not stored yet
    | Recorded(id: string)                             // handle stored
    | Detached(id: string)                             // Started written, node status still to come
    | Following(id: string)                            // works on the attempt that holds the fence
    | Ending(id: string)                               // about to end the current attempt
    | Unclaimed                                        // nothing submitted

  predicate Claims(cap: nat, c: Cell, h: History, role: Role) {
    match role
    case Free => true
    case Reading(snap) =>
      && snap.currentAttemptID == c.node.currentAttemptID && snap.handleJSON == c.node.handleJSON
      && (c.node.status == snap.status || c.node.status.IsTerminal())
      && (h.fenced != [] && c.node.currentAttemptID in c.attempts
          ==> !MaySubmit(ClassifyReconcile(snap, Some(c.attempts[c.node.currentAttemptID]))))
    case Allocating => h.fenced == [] && c.node.realizationCount < cap
    case Holding(id, released, retrying) =>
      && h.fenced == [] && id != "" && c.node.currentAttemptID == id
      && (released ==> AfterRelease(c.node.status))
      && (retrying ==> c.node.realizationCount < cap)
    case Marking(id, cur) =>
      && h.fenced == [] && id != "" && c.node.currentAttemptID == id && c.node.realizationCount < cap
      && cur.attemptID == id && !cur.fenceOpened && cur.handleJSON == ""
    case Opening(id) => h.fenced == [id] && h.started == [] && id in c.attempts && c.attempts[id].fenceOpened
    case Issued(id) => h.fenced == [id] && id in c.attempts && c.attempts[id].fenceOpened
    case Recorded(id) =>
      h.fenced == [id] && id in c.attempts && c.attempts[id].fenceOpened && c.node.handleJSON != ""
    case Detached(id) =>
      && h.fenced == [id] && id in c.attempts && c.node.handleJSON != ""
      && (c.attempts[id].fenceOpened || !c.attempts[id].reattemptable)
    case Following(id) => h.fenced == [id]
    case Ending(id) => id != "" && c.node.currentAttemptID == id
    case Unclaimed => h.fenced == []
  }

  predicate Safe(cap: nat, c: Cell, h: History, role: Role) {
    Records(cap, c) && Fences(c, h) && Claims(cap, c, h, role)
  }

  /** The roles a runner can fall back to without writing anything. */
  predicate Weaker(role: Role, than: Role) {
    || role == than || role == Free
    || (than.Holding? && (role == Holding(than.id, false, false) || role == Ending(than.id)))
    || (than.Marking? && role == Holding(than.id, false, true))
    || (than.Following? && role == Ending(than.id))
    || ((than.Opening? || than.Issued? || than.Recorded? || than.Detached?) && role == Following(than.id))
  }

  lemma Fallback(cap: nat, c: Cell, h: History, than: Role, role: Role)
    requires Safe(cap, c, h, than) && Weaker(role, than)
    ensures Safe(cap, c, h, role)
  {
  }

  // ---- reading ----

  lemma ReadNode(cap: nat, c: Cell, h: History)
    requires Safe(cap, c, h, Free)
    ensures Safe(cap, c, h, Reading(c.node))
  {
  }

  /** The classification of a possibly stale node snapshot is still sound. */
  lemma Classified(cap: nat, c: Cell, h: History, snap: NodeRecord)
    requires Safe(cap, c, h, Reading(snap))
    ensures match ClassifyReconcile(snap, GetCurrentAttempt(c))
            case TerminalRepair => true
            case Reattach => Safe(cap, c, h, Following(snap.currentAttemptID))
            case ResolveByIdentity => Safe(cap, c, h, Issued(snap.currentAttemptID))
            case Fresh => Safe(cap, c, h, Allocating) && Safe(cap, c, h, Unclaimed)
            case ResumePreFence => snap.currentAttemptID != "" && Safe(cap, c, h, Holding(snap.currentAttemptID, false, false))
    ensures snap.currentAttemptID != "" ==> Safe(cap, c, h, Ending(snap.currentAttemptID))
    ensures snap.currentAttemptID == "" ==> GetCurrentAttempt(c).None?
  {
  }

  // ---- before the fence ----

  lemma WriteStatus(cap: nat, c: Cell, h: History, id: string, released: bool, status: NodeStatus)
    requires Safe(cap, c, h, Holding(id, released, false))
    ensures Safe(cap, c.(node := c.node.(status := status)), h, Holding(id, AfterRelease(status), false))
  {
  }

  lemma Allocated(cap: nat, c: Cell, h: History, runID: string, nodeID: string)
    requires Safe(cap, c, h, Allocating)
    ensures Safe(cap, AllocateCell(c, runID, nodeID), h, Holding(AllocateID(c, runID, nodeID), false, false))
  {
  }

  lemma NoFenceNoOpportunity(cap: nat, c: Cell, h: History, id: string, released: bool)
    requires Safe(cap, c, h, Holding(id, released, false))
    ensures (set k | k in c.attempts && c.attempts[k].fenceOpened) == {}
  {
  }

  lemma Opened(cap: nat, c: Cell, h: History, id: string)
    requires Safe(cap, c, h, Holding(id, true, false))
    ensures MayOpen(c, id)
    ensures Safe(cap, OpenCell(c, id), h.(fenced := h.fenced + [id]), Opening(id))
  {
    assert h.fenced + [id] == [id];
  }

  // ---- failing before the fence ----

  lemma EndedBeforeFence(cap: nat, c: Cell, h: History, id: string, released: bool, record: AttemptRecord)
    requires Safe(cap, c, h, Holding(id, released, false))
    requires record.attemptID == id && !record.fenceOpened && record.handleJSON == "" && !record.reattemptable
    ensures Safe(cap, UpsertCell(c, record), h, Holding(id, false, false))
  {
  }

  lemma MayRetry(cap: nat, c: Cell, h: History, id: string, released: bool)
    requires Safe(cap, c, h, Holding(id, released, false)) && c.node.realizationCount < cap
    ensures Safe(cap, c, h, Holding(id, false, true))
  {
  }

  lemma ReadBack(cap: nat, c: Cell, h: History, id: string)
    requires Safe(cap, c, h, Holding(id, false, true))
    ensures GetCurrentAttempt(c).Some? && Safe(cap, c, h, Marking(id, GetCurrentAttempt(c).value))
  {
  }

  lemma Marked(cap: nat, c: Cell, h: History, id: string, current: AttemptRecord)
    requires Safe(cap, c, h, Marking(id, current))
    ensures Safe(cap, UpsertCell(c, current.(reattemptable := true)), h, Holding(id, false, true))
  {
  }

  lemma ResetNode(cap: nat, c: Cell, h: History, id: string, node: NodeRecord)
    requires Safe(cap, c, h, Holding(id, false, true))
    requires node.currentAttemptID == "" && node.handleJSON == ""
    requires node.attemptCount == c.node.attemptCount && node.realizationCount == c.node.realizationCount
    ensures Safe(cap, c.(node := node), h, Free)
  {
  }

  // ---- submission ----

  lemma StartIssued(cap: nat, c: Cell, h: History, id: string)
    requires Safe(cap, c, h, Opening(id))
    ensures Safe(cap, c, h.(started := h.started + [id]), Issued(id))
  {
    assert h.started + [id] == [id];
  }

  lemma HandleStored(cap: nat, c: Cell, h: History, id: string, handleJSON: string)
    requires Safe(cap, c, h, Issued(id)) && handleJSON != ""
    ensures id in c.attempts && Safe(cap, PersistHandleCell(c, id, handleJSON), h, Recorded(id))
  {
  }

  lemma HandleAttached(cap: nat, c: Cell, h: History, id: string, handleJSON: string)
    requires Safe(cap, c, h, Issued(id))
    ensures Safe(cap, PersistHandleCell(c, id, handleJSON), h, Following(id))
  {
  }

  /** The Started write drops the fence and the handle of the attempt. */
  lemma StartedWritten(cap: nat, c: Cell, h: History, id: string, record: AttemptRecord)
    requires Safe(cap, c, h, Recorded(id))
    requires record.attemptID == id && record.status == Started && record.handleJSON == "" && !record.reattemptable
    ensures Safe(cap, UpsertCell(c, record), h, Detached(id))
    ensures Safe(cap, c, h, Detached(id))
  {
  }

  /** A Cancel call may have made the node terminal meanwhile: this write takes it back. */
  lemma RunningWritten(cap: nat, c: Cell, h: History, id: string)
    requires Safe(cap, c, h, Detached(id))
    ensures Safe(cap, c.(node := c.node.(status := Running)), h, Following(id))
  {
  }

  // ---- endings ----

  lemma AttemptEnded(cap: nat, c: Cell, h: History, id: string, record: AttemptRecord)
    requires Safe(cap, c, h, Ending(id))
    requires record.attemptID == id && record.status.IsTerminal()
    requires !record.fenceOpened && record.handleJSON == "" && !record.reattemptable
    ensures Safe(cap, UpsertCell(c, record), h, Ending(id))
    ensures Safe(cap, c, h, Following(id)) ==> Safe(cap, UpsertCell(c, record), h, Following(id))
  {
  }

  lemma NodeEnded(cap: nat, c: Cell, h: History, role: Role, node: NodeRecord)
    requires Safe(cap, c, h, role)
    requires node.status.IsTerminal() && node.currentAttemptID == c.node.currentAttemptID
    requires node.attemptCount == c.node.attemptCount && node.realizationCount == c.node.realizationCount
    requires node.handleJSON == "" || node.handleJSON == c.node.handleJSON
    ensures Safe(cap, c.(node := node), h, Free)
  {
  }

  // ---- interference ----

  /** A Cancel call, or the skipping of pending nodes, ends the node under a runner. */
  lemma NodeEndedConcurrently(cap: nat, c: Cell, h: History, role: Role, node: NodeRecord)
    requires Safe(cap, c, h, role)
    requires node.status.IsTerminal()
    requires node == c.node.(status := node.status, stopCause := node.stopCause,
                             failureReason := node.failureReason, finished := node.finished)
    ensures Safe(cap, c.(node := node), h, role)
  {
  }

  /** Neither a cancellation intent nor a completed process touches what recovery consults. */
  lemma FactRecorded(cap: nat, c: Cell, h: History, role: Role, id: string, m: Mutation)
    requires Safe(cap, c, h, role) && id in c.attempts && !m.OpenFence?
    ensures Safe(cap, MutateCell(c, id, m), h, role)
  {
  }

  /** The attempt behind an open fence is current, and the records alone bar another submission. */
  lemma FencedOnRecord(cap: nat, c: Cell, h: History, role: Role, id: string)
    requires Safe(cap, c, h, role) && (id in h.fenced || id in h.started)
    ensures c.node.currentAttemptID == id && id in c.attempts
    ensures !MaySubmit(ClassifyReconcile(c.node, GetCurrentAttempt(c)))
    ensures var n, a := c.node, c.attempts[id];
            a.status.IsTerminal() || n.status.IsTerminal() || a.fenceOpened || n.handleJSON != ""
  {
    hide Claims, Records;
  }
}
