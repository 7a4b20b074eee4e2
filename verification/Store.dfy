/** What the registry operations mean, as functions on values.
  *
  * A `Cell` is everything one node owns: its record and its attempt records. The crash
  * protocol runs on one cell; `Store` collects the cells, runs and events of a registry.
  * Both registries (MemoryRegistry, SqliteRegistry) are proved against these functions.
  */
module Store {
  import opened Spec
  import opened AttemptId

  datatype Error =
    | RunNotFound | NodeNotFound | AttemptNotFound
    | AttemptNonTerminal | RunAlreadyExists
    | UpdateRejected | StoreFault

  datatype Result<+T> = Ok(value: T) | Err(error: Error)

  datatype Cell = Cell(node: NodeRecord, attempts: map<string, AttemptRecord>)

  // ---- one node ----

  function GetCurrentAttempt(c: Cell): Option<AttemptRecord> {
    if c.node.currentAttemptID != "" && c.node.currentAttemptID in c.attempts
    then Some(c.attempts[c.node.currentAttemptID])
    else None
  }

  /** No attempt may replace one whose backend truth is still open. */
  predicate MayAllocate(c: Cell) {
    var cur := GetCurrentAttempt(c);
    cur.Some? ==> cur.value.status.IsTerminal()
  }

  function AllocateID(c: Cell, runID: string, nodeID: string): string {
    DeterministicAttemptID(runID, nodeID, c.node.realizationCount + 1)
  }

  function AllocateCell(c: Cell, runID: string, nodeID: string): Cell {
    var id := AllocateID(c, runID, nodeID);
    Cell(c.node.(realizationCount := c.node.realizationCount + 1,
                 currentAttemptID := id,
                 status := Ready,
                 started := true),
         c.attempts[id := BareAttempt(runID, nodeID, id, Prepared, true, false, "", "")])
  }

  predicate MayOpen(c: Cell, attemptID: string) {
    c.node.currentAttemptID == attemptID && attemptID in c.attempts
  }

  function OpenCell(c: Cell, attemptID: string): Cell
    requires MayOpen(c, attemptID)
  {
    Cell(c.node.(attemptCount := c.node.attemptCount + 1),
         c.attempts[attemptID := c.attempts[attemptID].(fenceOpened := true)])
  }

  function PersistHandleCell(c: Cell, attemptID: string, handleJSON: string): Cell
    requires attemptID in c.attempts
  {
    Cell(if c.node.currentAttemptID == attemptID then c.node.(handleJSON := handleJSON) else c.node,
         c.attempts[attemptID := c.attempts[attemptID].(handleJSON := handleJSON)])
  }

  function PutAttemptCell(c: Cell, attemptID: string, record: AttemptRecord): Cell {
    c.(attempts := c.attempts[attemptID := record])
  }

  function UpsertCell(c: Cell, record: AttemptRecord): Cell {
    PutAttemptCell(c, record.attemptID, record)
  }

  // The single-record mutations the registries share.
  datatype Mutation =
    | OpenFence
    | RequestCancellation(reason: string)
    | CompleteProcess

  function Mutate(a: AttemptRecord, m: Mutation): AttemptRecord {
    match m
    case OpenFence => a.(fenceOpened := true)
    case RequestCancellation(reason) => a.(cancelRequested := true, cancelReason := reason)
    case CompleteProcess => a.(processCompleted := true)
  }

  function MutateCell(c: Cell, attemptID: string, m: Mutation): Cell
    requires attemptID in c.attempts
  {
    c.(attempts := c.attempts[attemptID := Mutate(c.attempts[attemptID], m)])
  }

  // ---- a whole registry ----

  datatype EventRecord = EventRecord(runID: string, text: string)

  datatype Store = Store(
    runs: map<string, RunRecord>,
    cells: map<(string, string), Cell>,
    events: map<string, seq<EventRecord>>)

  predicate Present(st: Store, runID: string, nodeID: string) {
    runID in st.runs && (runID, nodeID) in st.cells
  }

  function Absent(st: Store, runID: string): Error {
    if runID in st.runs then NodeNotFound else RunNotFound
  }

  function WithCell(st: Store, runID: string, nodeID: string, c: Cell): Store {
    st.(cells := st.cells[(runID, nodeID) := c])
  }

  lemma WithCellTwice(st: Store, runID: string, nodeID: string, c: Cell, d: Cell)
    ensures (runID, nodeID) in WithCell(st, runID, nodeID, c).cells
    ensures WithCell(st, runID, nodeID, c).cells[(runID, nodeID)] == c
    ensures WithCell(WithCell(st, runID, nodeID, c), runID, nodeID, d) == WithCell(st, runID, nodeID, d)
  {
  }

  /** One attempt record is replaced, and nothing else changes. */
  ghost predicate RecordReplaced(before: Store, after: Store, runID: string, nodeID: string, attemptID: string,
                                 record: AttemptRecord)
  {
    && Present(before, runID, nodeID)
    && var c := before.cells[(runID, nodeID)];
       after == before.(cells := before.cells[(runID, nodeID) := c.(attempts := c.attempts[attemptID := record])])
  }

  /** The record an attempt has, in a store that has the attempt. */
  ghost predicate HasAttempt(st: Store, runID: string, nodeID: string, attemptID: string) {
    Present(st, runID, nodeID) && attemptID in st.cells[(runID, nodeID)].attempts
  }

  ghost function AttemptIn(st: Store, runID: string, nodeID: string, attemptID: string): AttemptRecord
    requires HasAttempt(st, runID, nodeID, attemptID)
  {
    st.cells[(runID, nodeID)].attempts[attemptID]
  }

  /** Cells of a newly created run; a repeated node id keeps its last record. */
  function NewCells(runID: string, nodes: seq<NodeRecord>): map<(string, string), Cell> {
    if nodes == [] then map[]
    else
      var last := nodes[|nodes| - 1];
      NewCells(runID, nodes[..|nodes| - 1])[(runID, last.nodeID) := Cell(last, map[])]
  }

  lemma NewCellsStep(cells: map<(string, string), Cell>, runID: string, nodes: seq<NodeRecord>, i: nat)
    requires i <= |nodes|
    ensures i == 0 ==> cells + NewCells(runID, nodes[..i]) == cells
    ensures i < |nodes| ==>
              cells + NewCells(runID, nodes[..i + 1])
              == (cells + NewCells(runID, nodes[..i]))[(runID, nodes[i].nodeID) := Cell(nodes[i], map[])]
  {
    if i < |nodes| {
      assert nodes[..i + 1][..i] == nodes[..i];
    }
  }

  function CreateRun(st: Store, record: RunRecord, nodes: seq<NodeRecord>): Result<Store> {
    if record.runID in st.runs then Err(RunAlreadyExists)
    else Ok(Store(st.runs[record.runID := record],
                  st.cells + NewCells(record.runID, nodes),
                  st.events[record.runID := []]))
  }

  function UpdateRun(st: Store, runID: string, update: RunRecord -> Option<RunRecord>): Result<Store> {
    if runID !in st.runs then Err(RunNotFound)
    else match update(st.runs[runID])
      case None => Err(UpdateRejected)
      case Some(run) => Ok(st.(runs := st.runs[runID := run]))
  }

  function UpdateNode(st: Store, runID: string, nodeID: string,
                      update: NodeRecord -> Option<NodeRecord>): Result<Store>
  {
    if !Present(st, runID, nodeID) then Err(Absent(st, runID))
    else
      var c := st.cells[(runID, nodeID)];
      match update(c.node)
      case None => Err(UpdateRejected)
      case Some(node) => Ok(WithCell(st, runID, nodeID, c.(node := node)))
  }

  function UpsertAttempt(st: Store, record: AttemptRecord): Result<Store> {
    if !Present(st, record.runID, record.nodeID) then Err(Absent(st, record.runID))
    else Ok(WithCell(st, record.runID, record.nodeID,
                     UpsertCell(st.cells[(record.runID, record.nodeID)], record)))
  }

  function Allocate(st: Store, runID: string, nodeID: string): Result<Store> {
    if !Present(st, runID, nodeID) then Err(Absent(st, runID))
    else
      var c := st.cells[(runID, nodeID)];
      if !MayAllocate(c) then Err(AttemptNonTerminal)
      else Ok(WithCell(st, runID, nodeID, AllocateCell(c, runID, nodeID)))
  }

  function OpenSemanticAttempt(st: Store, runID: string, nodeID: string, attemptID: string): Result<Store> {
    if !Present(st, runID, nodeID) then Err(Absent(st, runID))
    else
      var c := st.cells[(runID, nodeID)];
      if !MayOpen(c, attemptID) then Err(AttemptNotFound)
      else Ok(WithCell(st, runID, nodeID, OpenCell(c, attemptID)))
  }

  function PersistBackendHandle(st: Store, runID: string, nodeID: string, attemptID: string,
                                handleJSON: string): Result<Store>
  {
    if !Present(st, runID, nodeID) then Err(Absent(st, runID))
    else
      var c := st.cells[(runID, nodeID)];
      if attemptID !in c.attempts then Err(AttemptNotFound)
      else Ok(WithCell(st, runID, nodeID, PersistHandleCell(c, attemptID, handleJSON)))
  }

  function MutateAttempt(st: Store, runID: string, nodeID: string, attemptID: string, m: Mutation): Result<Store> {
    if !Present(st, runID, nodeID) then Err(Absent(st, runID))
    else
      var c := st.cells[(runID, nodeID)];
      if attemptID !in c.attempts then Err(AttemptNotFound)
      else Ok(WithCell(st, runID, nodeID, MutateCell(c, attemptID, m)))
  }

  function AppendEvent(st: Store, event: EventRecord): Result<Store> {
    if event.runID !in st.runs || event.runID !in st.events then Err(RunNotFound)
    else Ok(st.(events := st.events[event.runID := st.events[event.runID] + [event]]))
  }
}
