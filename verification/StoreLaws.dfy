/** What can be read back after each registry operation, field by field, and what it leaves alone. */
module StoreLaws {
  import opened Spec
  import opened AttemptId
  import opened Store

  /** Only the cell of one node differs. */
  predicate OnlyCell(st: Store, after: Store, runID: string, nodeID: string, c: Cell) {
    after == st.(cells := st.cells[(runID, nodeID) := c])
  }

  predicate Missing(st: Store, runID: string, nodeID: string, e: Error) {
    if runID !in st.runs then e == RunNotFound else (runID, nodeID) !in st.cells && e == NodeNotFound
  }

  /** Refused exactly while the current attempt is on record and unfinished; otherwise the node
    * points to a new Prepared attempt, numbered one higher, on which no durable fact is set. */
  lemma AllocationReadsBack(st: Store, runID: string, nodeID: string)
    ensures match Allocate(st, runID, nodeID)
            case Err(e) =>
              if Present(st, runID, nodeID) then
                var c := st.cells[(runID, nodeID)];
                && e == AttemptNonTerminal && c.node.currentAttemptID in c.attempts
                && !c.attempts[c.node.currentAttemptID].status.IsTerminal()
              else Missing(st, runID, nodeID, e)
            case Ok(after) =>
              && Present(st, runID, nodeID)
              && var c := st.cells[(runID, nodeID)];
                 var id := runID + "-" + nodeID + "-attempt-" + Itoa(c.node.realizationCount + 1);
                 && (c.node.currentAttemptID != "" && c.node.currentAttemptID in c.attempts ==>
                       c.attempts[c.node.currentAttemptID].status.IsTerminal())
                 && OnlyCell(st, after, runID, nodeID,
                      Cell(c.node.(realizationCount := c.node.realizationCount + 1, currentAttemptID := id,
                                   status := Ready, started := true),
                           c.attempts[id := AttemptRecord(runID, nodeID, id, Prepared, true, false, "", "", "",
                                                          false, false, "", false, false)]))
  {
    hide Itoa;
  }

  /** Only the current attempt's fence can be opened; doing so counts one opportunity. */
  lemma FenceReadsBack(st: Store, runID: string, nodeID: string, id: string)
    ensures match OpenSemanticAttempt(st, runID, nodeID, id)
            case Err(e) =>
              if Present(st, runID, nodeID) then
                var c := st.cells[(runID, nodeID)];
                e == AttemptNotFound && (c.node.currentAttemptID != id || id !in c.attempts)
              else Missing(st, runID, nodeID, e)
            case Ok(after) =>
              && Present(st, runID, nodeID)
              && var c := st.cells[(runID, nodeID)];
                 && c.node.currentAttemptID == id && id in c.attempts
                 && OnlyCell(st, after, runID, nodeID,
                      Cell(c.node.(attemptCount := c.node.attemptCount + 1),
                           c.attempts[id := c.attempts[id].(fenceOpened := true)]))
  {
  }

  /** A handle is stored on its attempt, and mirrored on the node only for the current attempt. */
  lemma HandleReadsBack(st: Store, runID: string, nodeID: string, id: string, handleJSON: string)
    ensures match PersistBackendHandle(st, runID, nodeID, id, handleJSON)
            case Err(e) =>
              if Present(st, runID, nodeID) then e == AttemptNotFound && id !in st.cells[(runID, nodeID)].attempts
              else Missing(st, runID, nodeID, e)
            case Ok(after) =>
              && Present(st, runID, nodeID)
              && var c := st.cells[(runID, nodeID)];
                 && id in c.attempts
                 && OnlyCell(st, after, runID, nodeID,
                      Cell(c.node.(handleJSON := if c.node.currentAttemptID == id then handleJSON else c.node.handleJSON),
                           c.attempts[id := c.attempts[id].(handleJSON := handleJSON)]))
  {
  }

  /** Each mutation sets its own facts on one record. */
  lemma MutationReadsBack(st: Store, runID: string, nodeID: string, id: string, m: Mutation)
    ensures match MutateAttempt(st, runID, nodeID, id, m)
            case Err(e) =>
              if Present(st, runID, nodeID) then e == AttemptNotFound && id !in st.cells[(runID, nodeID)].attempts
              else Missing(st, runID, nodeID, e)
            case Ok(after) =>
              && HasAttempt(st, runID, nodeID, id)
              && var a := AttemptIn(st, runID, nodeID, id);
                 RecordReplaced(st, after, runID, nodeID, id,
                   match m
                   case OpenFence => a.(fenceOpened := true)
                   case RequestCancellation(reason) => a.(cancelRequested := true, cancelReason := reason)
                   case CompleteProcess => a.(processCompleted := true))
  {
  }

  /** An upsert replaces the whole record under its own id, or adds it. */
  lemma UpsertReadsBack(st: Store, record: AttemptRecord)
    ensures match UpsertAttempt(st, record)
            case Err(e) => !Present(st, record.runID, record.nodeID) && Missing(st, record.runID, record.nodeID, e)
            case Ok(after) => RecordReplaced(st, after, record.runID, record.nodeID, record.attemptID, record)
  {
  }

  /** An update replaces what it was given by what it returns, or is rejected. */
  lemma UpdatesReadBack(st: Store, runID: string, nodeID: string,
                        updateRun: RunRecord -> Option<RunRecord>, updateNode: NodeRecord -> Option<NodeRecord>)
    ensures match UpdateRun(st, runID, updateRun)
            case Err(e) =>
              if runID in st.runs then e == UpdateRejected && updateRun(st.runs[runID]).None? else e == RunNotFound
            case Ok(after) =>
              && runID in st.runs && updateRun(st.runs[runID]).Some?
              && after == st.(runs := st.runs[runID := updateRun(st.runs[runID]).value])
    ensures match UpdateNode(st, runID, nodeID, updateNode)
            case Err(e) =>
              if Present(st, runID, nodeID) then
                e == UpdateRejected && updateNode(st.cells[(runID, nodeID)].node).None?
              else Missing(st, runID, nodeID, e)
            case Ok(after) =>
              && Present(st, runID, nodeID)
              && var c := st.cells[(runID, nodeID)];
                 updateNode(c.node).Some? && OnlyCell(st, after, runID, nodeID, Cell(updateNode(c.node).value, c.attempts))
  {
  }

  /** A new run brings its record, no events and one cell without attempts for each node id, with
    * the last record given for that id; everything else stays. */
  lemma CreationReadsBack(st: Store, record: RunRecord, nodes: seq<NodeRecord>)
    ensures match CreateRun(st, record, nodes)
            case Err(e) => record.runID in st.runs && e == RunAlreadyExists
            case Ok(after) =>
              && record.runID !in st.runs
              && after.runs == st.runs[record.runID := record] && after.events == st.events[record.runID := []]
              && (forall k | k in st.cells && k.0 != record.runID :: k in after.cells && after.cells[k] == st.cells[k])
              && (forall k | k in after.cells && k !in st.cells :: k.0 == record.runID)
              && forall i | 0 <= i < |nodes| && (forall j | i < j < |nodes| :: nodes[j].nodeID != nodes[i].nodeID) ::
                   && (record.runID, nodes[i].nodeID) in after.cells
                   && after.cells[(record.runID, nodes[i].nodeID)] == Cell(nodes[i], map[])
  {
    if record.runID !in st.runs {
      forall k
        ensures k in NewCells(record.runID, nodes) ==> k.0 == record.runID
      {
        NewCellsOfRun(record.runID, nodes, k);
      }
      forall i | 0 <= i < |nodes| && (forall j | i < j < |nodes| :: nodes[j].nodeID != nodes[i].nodeID)
        ensures (record.runID, nodes[i].nodeID) in NewCells(record.runID, nodes)
        ensures NewCells(record.runID, nodes)[(record.runID, nodes[i].nodeID)] == Cell(nodes[i], map[])
      {
        LastWins(record.runID, nodes, i);
      }
    }
  }

  lemma {:induction false} NewCellsOfRun(runID: string, nodes: seq<NodeRecord>, k: (string, string))
    ensures k in NewCells(runID, nodes) ==> k.0 == runID
  {
    if nodes != [] {
      NewCellsOfRun(runID, nodes[..|nodes| - 1], k);
    }
  }

  lemma {:induction false} LastWins(runID: string, nodes: seq<NodeRecord>, i: nat)
    requires i < |nodes| && forall j | i < j < |nodes| :: nodes[j].nodeID != nodes[i].nodeID
    ensures (runID, nodes[i].nodeID) in NewCells(runID, nodes)
    ensures NewCells(runID, nodes)[(runID, nodes[i].nodeID)] == Cell(nodes[i], map[])
  {
    var n := |nodes| - 1;
    if i < n {
      LastWins(runID, nodes[..n], i);
    }
  }

  /** Events are kept in the order they were appended. */
  lemma EventReadsBack(st: Store, e: EventRecord)
    ensures match AppendEvent(st, e)
            case Err(err) => err == RunNotFound && (e.runID !in st.runs || e.runID !in st.events)
            case Ok(after) =>
              && e.runID in st.runs && e.runID in st.events
              && after == st.(events := st.events[e.runID := st.events[e.runID] + [e]])
  {
  }
}
