/** The rows of pkg/registry/sqlite.go and the SQL statements it issues, on values.
  *
  * JSON is taken as a lossless encoding, so a `data` column holds the record itself.
  * `Consistent` is what ties the promoted columns to the documents; `ViewOf` reads the
  * tables as a Store.
  */
module SqliteTables {
  import opened Spec
  import S = Store

  datatype RunRow = RunRow(status: RunStatus, acceptedAt: int, data: RunRecord)
  datatype NodeRow = NodeRow(status: NodeStatus, attemptCount: nat, currentAttemptID: string, data: NodeRecord)
  datatype AttemptRow = AttemptRow(status: AttemptStatus, data: AttemptRecord)
  datatype EventRow = EventRow(runID: string, data: S.EventRecord)

  type NodeKey = (string, string)
  type AttemptKey = (string, string, string)

  datatype Tables = Tables(
    runs: map<string, RunRow>,
    nodes: map<NodeKey, NodeRow>,
    attempts: map<AttemptKey, AttemptRow>,
    events: seq<EventRow>)

  // ---- rows and statements ----

  function RunRowOf(run: RunRecord): RunRow {
    RunRow(run.status, run.acceptedAt, run)
  }

  function NodeRowOf(node: NodeRecord): NodeRow {
    NodeRow(node.status, node.attemptCount, node.currentAttemptID, node)
  }

  function AttemptRowOf(a: AttemptRecord): AttemptRow {
    AttemptRow(a.status, a)
  }

  function NodeKeyOf(node: NodeRecord): NodeKey {
    (node.runID, node.nodeID)
  }

  function AttemptKeyOf(a: AttemptRecord): AttemptKey {
    (a.runID, a.nodeID, a.attemptID)
  }

  /** INSERT INTO runs, UPDATE runs WHERE run_id */
  function PutRun(db: Tables, runID: string, run: RunRecord): Tables {
    db.(runs := db.runs[runID := RunRowOf(run)])
  }

  /** INSERT INTO nodes */
  function InsertNode(db: Tables, node: NodeRecord): Tables {
    db.(nodes := db.nodes[NodeKeyOf(node) := NodeRowOf(node)])
  }

  /** writeNodeTx: an UPDATE addressed by the ids inside the document; no such row, no effect. */
  function WriteNode(db: Tables, node: NodeRecord): Tables {
    if NodeKeyOf(node) in db.nodes then InsertNode(db, node) else db
  }

  /** writeAttemptTx: an upsert addressed by the ids inside the document. */
  function WriteAttempt(db: Tables, a: AttemptRecord): Tables {
    db.(attempts := db.attempts[AttemptKeyOf(a) := AttemptRowOf(a)])
  }

  function GetNode(db: Tables, runID: string, nodeID: string): S.Result<NodeRecord> {
    if (runID, nodeID) in db.nodes then S.Ok(db.nodes[(runID, nodeID)].data)
    else if runID in db.runs then S.Err(S.NodeNotFound)
    else S.Err(S.RunNotFound)
  }

  function GetAttempt(db: Tables, runID: string, nodeID: string, attemptID: string): Option<AttemptRecord> {
    if (runID, nodeID, attemptID) in db.attempts then Some(db.attempts[(runID, nodeID, attemptID)].data)
    else None
  }

  // ---- what holds of the tables between transactions ----

  ghost predicate GoodRuns(db: Tables) {
    forall r | r in db.runs :: db.runs[r] == RunRowOf(db.runs[r].data)
  }

  ghost predicate GoodNodes(db: Tables) {
    forall k | k in db.nodes ::
      db.nodes[k] == NodeRowOf(db.nodes[k].data) && k == NodeKeyOf(db.nodes[k].data) && k.0 in db.runs
  }

  ghost predicate GoodAttempts(db: Tables) {
    forall k | k in db.attempts ::
      && db.attempts[k] == AttemptRowOf(db.attempts[k].data)
      && k == AttemptKeyOf(db.attempts[k].data)
      && (k.0, k.1) in db.nodes
  }

  ghost predicate GoodEvents(db: Tables) {
    forall i | 0 <= i < |db.events| ::
      db.events[i].runID in db.runs && db.events[i].data.runID == db.events[i].runID
  }

  ghost predicate Consistent(db: Tables) {
    GoodRuns(db) && GoodNodes(db) && GoodAttempts(db) && GoodEvents(db)
  }

  // ---- the tables as a Store ----

  ghost function Own(attempts: map<AttemptKey, AttemptRow>, k: NodeKey): map<string, AttemptRecord> {
    map a | a in AttemptIDs(attempts, k) :: attempts[(k.0, k.1, a)].data
  }

  ghost function AttemptIDs(attempts: map<AttemptKey, AttemptRow>, k: NodeKey): (ids: set<string>)
    ensures forall a :: a in ids <==> (k.0, k.1, a) in attempts
  {
    var ids := set key | key in attempts && key.0 == k.0 && key.1 == k.1 :: key.2;
    assert forall a :: (k.0, k.1, a) in attempts ==> (k.0, k.1, a).2 in ids;
    ids
  }

  ghost function Cells(nodes: map<NodeKey, NodeRow>, attempts: map<AttemptKey, AttemptRow>): map<NodeKey, S.Cell> {
    map k | k in nodes :: S.Cell(nodes[k].data, Own(attempts, k))
  }

  ghost function EventsOf(events: seq<EventRow>, runID: string): seq<S.EventRecord> {
    if events == [] then []
    else
      var n := |events| - 1;
      EventsOf(events[..n], runID) + (if events[n].runID == runID then [events[n].data] else [])
  }

  ghost function Runs(runs: map<string, RunRow>): map<string, RunRecord> {
    map r | r in runs :: runs[r].data
  }

  ghost function Events(runIDs: set<string>, events: seq<EventRow>): map<string, seq<S.EventRecord>> {
    map r | r in runIDs :: EventsOf(events, r)
  }

  ghost function ViewOf(db: Tables): S.Store {
    S.Store(Runs(db.runs), Cells(db.nodes, db.attempts), Events(db.runs.Keys, db.events))
  }

  // ---- what each statement does to the Store ----

  lemma InsertNodeConsistent(db: Tables, node: NodeRecord)
    requires Consistent(db) && node.runID in db.runs
    ensures Consistent(InsertNode(db, node))
  {
  }

  lemma InsertNodeView(db: Tables, node: NodeRecord)
    requires Consistent(db) && node.runID in db.runs
    ensures Consistent(InsertNode(db, node))
    ensures ViewOf(InsertNode(db, node))
            == S.WithCell(ViewOf(db), node.runID, node.nodeID, S.Cell(node, Own(db.attempts, NodeKeyOf(node))))
  {
    InsertNodeConsistent(db, node);
    hide Own, Consistent, EventsOf;
    var after := InsertNode(db, node);
    assert Cells(after.nodes, db.attempts)
        == Cells(db.nodes, db.attempts)[NodeKeyOf(node) := S.Cell(node, Own(db.attempts, NodeKeyOf(node)))];
  }

  lemma WriteNodeView(db: Tables, node: NodeRecord)
    requires Consistent(db) && NodeKeyOf(node) in db.nodes
    ensures Consistent(WriteNode(db, node))
    ensures (node.runID, node.nodeID) in ViewOf(db).cells
    ensures ViewOf(WriteNode(db, node))
            == S.WithCell(ViewOf(db), node.runID, node.nodeID,
                          ViewOf(db).cells[(node.runID, node.nodeID)].(node := node))
  {
    InsertNodeView(db, node);
  }

  lemma OwnAfterWrite(db: Tables, a: AttemptRecord, k: NodeKey)
    ensures Own(WriteAttempt(db, a).attempts, k)
            == if k == (a.runID, a.nodeID) then Own(db.attempts, k)[a.attemptID := a] else Own(db.attempts, k)
  {
  }

  lemma WriteAttemptConsistent(db: Tables, a: AttemptRecord)
    requires Consistent(db) && (a.runID, a.nodeID) in db.nodes
    ensures Consistent(WriteAttempt(db, a))
  {
  }

  lemma WriteAttemptView(db: Tables, a: AttemptRecord)
    requires Consistent(db) && (a.runID, a.nodeID) in db.nodes
    ensures Consistent(WriteAttempt(db, a))
    ensures (a.runID, a.nodeID) in ViewOf(db).cells
    ensures ViewOf(WriteAttempt(db, a))
            == S.WithCell(ViewOf(db), a.runID, a.nodeID,
                          S.UpsertCell(ViewOf(db).cells[(a.runID, a.nodeID)], a))
  {
    WriteAttemptConsistent(db, a);
    CellsAfterWrite(db, a);
    hide Consistent;
  }

  /** Both writes of a transaction that changes an attempt and its node. */
  lemma WriteBothView(db: Tables, a: AttemptRecord, node: NodeRecord)
    requires Consistent(db) && (a.runID, a.nodeID) in db.nodes && NodeKeyOf(node) == (a.runID, a.nodeID)
    ensures Consistent(WriteNode(WriteAttempt(db, a), node))
    ensures (a.runID, a.nodeID) in ViewOf(db).cells
    ensures ViewOf(WriteNode(WriteAttempt(db, a), node))
            == S.WithCell(ViewOf(db), a.runID, a.nodeID,
                          S.UpsertCell(ViewOf(db).cells[(a.runID, a.nodeID)], a).(node := node))
  {
    WriteAttemptView(db, a);
    WriteNodeView(WriteAttempt(db, a), node);
    var c := S.UpsertCell(ViewOf(db).cells[(a.runID, a.nodeID)], a);
    S.WithCellTwice(ViewOf(db), a.runID, a.nodeID, c, c.(node := node));
    hide *;
  }

  lemma CellsAfterWrite(db: Tables, a: AttemptRecord)
    requires (a.runID, a.nodeID) in db.nodes
    ensures (a.runID, a.nodeID) in Cells(db.nodes, db.attempts)
    ensures Cells(db.nodes, WriteAttempt(db, a).attempts)
            == Cells(db.nodes, db.attempts)[(a.runID, a.nodeID) :=
                 S.UpsertCell(Cells(db.nodes, db.attempts)[(a.runID, a.nodeID)], a)]
  {
    hide Own, S.UpsertCell;
    var key := (a.runID, a.nodeID);
    var before, after := Cells(db.nodes, db.attempts), Cells(db.nodes, WriteAttempt(db, a).attempts);
    forall k | k in db.nodes
      ensures after[k] == before[key := S.UpsertCell(before[key], a)][k]
    {
      CellAfterWrite(db, a, k);
    }
  }

  lemma CellAfterWrite(db: Tables, a: AttemptRecord, k: NodeKey)
    requires k in db.nodes
    ensures var before := Cells(db.nodes, db.attempts)[k];
            Cells(db.nodes, WriteAttempt(db, a).attempts)[k]
            == if k == (a.runID, a.nodeID) then S.UpsertCell(before, a) else before
  {
    hide Own;
    OwnAfterWrite(db, a, k);
  }

  lemma PutRunConsistent(db: Tables, runID: string, run: RunRecord)
    requires Consistent(db)
    ensures Consistent(PutRun(db, runID, run))
  {
  }

  lemma UpdateRunView(db: Tables, runID: string, run: RunRecord)
    requires Consistent(db) && runID in db.runs
    ensures Consistent(PutRun(db, runID, run))
    ensures ViewOf(PutRun(db, runID, run)) == ViewOf(db).(runs := ViewOf(db).runs[runID := run])
  {
    PutRunConsistent(db, runID, run);
    hide Consistent, Events;
    RunsAfterPut(db.runs, runID, run);
    assert PutRun(db, runID, run).runs.Keys == db.runs.Keys;
    hide Runs, RunRowOf;
  }

  lemma RunsAfterPut(runs: map<string, RunRow>, runID: string, run: RunRecord)
    ensures Runs(runs[runID := RunRowOf(run)]) == Runs(runs)[runID := run]
  {
  }

  lemma {:induction false} NoEventsYet(events: seq<EventRow>, runID: string)
    requires forall i | 0 <= i < |events| :: events[i].runID != runID
    ensures EventsOf(events, runID) == []
  {
    if events != [] {
      NoEventsYet(events[..|events| - 1], runID);
    }
  }

  lemma InsertRunView(db: Tables, run: RunRecord)
    requires Consistent(db) && run.runID !in db.runs
    ensures Consistent(PutRun(db, run.runID, run))
    ensures ViewOf(PutRun(db, run.runID, run))
            == S.Store(ViewOf(db).runs[run.runID := run], ViewOf(db).cells, ViewOf(db).events[run.runID := []])
  {
    PutRunConsistent(db, run.runID, run);
    NoEventsYet(db.events, run.runID);
    hide Consistent, EventsOf;
    RunsAfterPut(db.runs, run.runID, run);
    EventsOfNewRun(db.runs.Keys, db.events, run.runID);
    assert PutRun(db, run.runID, run).runs.Keys == db.runs.Keys + {run.runID};
    hide Runs, RunRowOf, Events;
  }

  lemma EventsOfNewRun(runIDs: set<string>, events: seq<EventRow>, runID: string)
    requires EventsOf(events, runID) == []
    ensures Events(runIDs + {runID}, events) == Events(runIDs, events)[runID := []]
  {
    hide EventsOf;
  }

  function InsertEvent(db: Tables, e: S.EventRecord): Tables {
    db.(events := db.events + [EventRow(e.runID, e)])
  }

  lemma InsertEventView(db: Tables, e: S.EventRecord)
    requires Consistent(db) && e.runID in db.runs
    ensures Consistent(InsertEvent(db, e))
    ensures e.runID in ViewOf(db).events
    ensures ViewOf(InsertEvent(db, e))
            == ViewOf(db).(events := ViewOf(db).events[e.runID := ViewOf(db).events[e.runID] + [e]])
  {
    EventsAfterInsert(db.runs.Keys, db.events, e);
    hide Events;
  }

  lemma EventsAfterInsert(runIDs: set<string>, events: seq<EventRow>, e: S.EventRecord)
    requires e.runID in runIDs
    ensures e.runID in Events(runIDs, events)
    ensures Events(runIDs, events + [EventRow(e.runID, e)])
            == Events(runIDs, events)[e.runID := Events(runIDs, events)[e.runID] + [e]]
  {
    hide EventsOf;
    forall r
      ensures EventsOf(events + [EventRow(e.runID, e)], r)
              == if r == e.runID then EventsOf(events, r) + [e] else EventsOf(events, r)
    {
      EventsOfAppend(events, EventRow(e.runID, e), r);
    }
  }

  lemma EventsOfAppend(events: seq<EventRow>, row: EventRow, r: string)
    ensures EventsOf(events + [row], r)
            == if row.runID == r then EventsOf(events, r) + [row.data] else EventsOf(events, r)
  {
    assert (events + [row])[..|events|] == events;
  }

  /** A node of a new run finds no attempt rows left under its key. */
  lemma NothingOwnedYet(db: Tables, k: NodeKey)
    requires Consistent(db) && k !in db.nodes
    ensures Own(db.attempts, k) == map[]
  {
  }

  lemma ViewAt(db: Tables, r: string, n: string)
    requires Consistent(db)
    ensures r in ViewOf(db).runs <==> r in db.runs
    ensures S.Present(ViewOf(db), r, n) <==> (r, n) in db.nodes
    ensures (r, n) in db.nodes ==>
              && ViewOf(db).cells[(r, n)].node == db.nodes[(r, n)].data
              && NodeKeyOf(db.nodes[(r, n)].data) == (r, n)
  {
  }

  lemma AttemptAt(db: Tables, r: string, n: string, a: string)
    requires Consistent(db)
    ensures (r, n, a) in db.attempts <==> S.Present(ViewOf(db), r, n) && a in ViewOf(db).cells[(r, n)].attempts
    ensures (r, n, a) in db.attempts ==>
              && AttemptKeyOf(db.attempts[(r, n, a)].data) == (r, n, a)
              && ViewOf(db).cells[(r, n)].attempts[a] == db.attempts[(r, n, a)].data
  {
    if (r, n, a) in db.attempts {
      assert (r, n) in db.nodes;
    }
  }
}
