/** SQLiteRegistry of pkg/registry/sqlite.go: every mutation is one transaction.
  *
  * `fault` says which SQL statement of the call fails, if any (0 is BEGIN, the last one is
  * COMMIT); the deferred rollback is the unchanged `db`. A method therefore has one contract
  * for every fault: an error leaves all tables alone, a success has the effect Store
  * prescribes, and without a fault it succeeds exactly when Store's operation does.
  */
module SqliteRegistry {
  import opened Spec
  import opened AttemptId
  import opened T = SqliteTables
  import S = Store

  /** CreateRun is given nodes of the run it creates. */
  ghost predicate Matching(record: RunRecord, nodes: seq<NodeRecord>) {
    forall i | 0 <= i < |nodes| :: nodes[i].runID == record.runID
  }

  ghost predicate DistinctIDs(nodes: seq<NodeRecord>) {
    forall i, j | 0 <= i < j < |nodes| :: nodes[i].nodeID != nodes[j].nodeID
  }

  /** What writeNodeTx does to a Store, whatever ids the document carries. */
  ghost function Rewritten(st: S.Store, node: NodeRecord): S.Store {
    if (node.runID, node.nodeID) in st.cells
    then S.WithCell(st, node.runID, node.nodeID, st.cells[(node.runID, node.nodeID)].(node := node))
    else st
  }

  /** Writing by the ids inside the document is writing to the node that was read exactly
    * when the update left those ids alone. */
  lemma RewriteHitsTheNodeReadIffIdsKept(st: S.Store, runID: string, nodeID: string, node: NodeRecord)
    requires (runID, nodeID) in st.cells && NodeKeyOf(st.cells[(runID, nodeID)].node) == (runID, nodeID)
    ensures Rewritten(st, node) == S.WithCell(st, runID, nodeID, st.cells[(runID, nodeID)].(node := node))
            <==> NodeKeyOf(node) == (runID, nodeID)
  {
    if NodeKeyOf(node) != (runID, nodeID) {
      var after := Rewritten(st, node);
      assert after.cells[(runID, nodeID)] == st.cells[(runID, nodeID)];
    }
  }

  /** CreateRun's transaction after the run row and the first `i` node rows. */
  ghost predicate Inserted(db: Tables, record: RunRecord, nodes: seq<NodeRecord>, i: nat, tx: Tables)
    requires i <= |nodes|
  {
    && Consistent(tx) && tx.runs.Keys == db.runs.Keys + {record.runID}
    && DistinctIDs(nodes[..i])
    && Keyed(record.runID, nodes[..i], tx)
    && ViewOf(tx) == S.Store(ViewOf(db).runs[record.runID := record],
                             ViewOf(db).cells + S.NewCells(record.runID, nodes[..i]),
                             ViewOf(db).events[record.runID := []])
  }

  ghost predicate Keyed(runID: string, nodes: seq<NodeRecord>, tx: Tables) {
    forall n :: (runID, n) in tx.nodes <==> Among(nodes, n)
  }

  ghost predicate Among(nodes: seq<NodeRecord>, n: string) {
    exists j :: 0 <= j < |nodes| && nodes[j].nodeID == n
  }

  lemma InsertedNone(db: Tables, record: RunRecord, nodes: seq<NodeRecord>)
    requires Consistent(db) && record.runID !in db.runs
    ensures Inserted(db, record, nodes, 0, PutRun(db, record.runID, record))
  {
    InsertRunView(db, record);
    S.NewCellsStep(ViewOf(db).cells, record.runID, nodes, 0);
    NoNodesYet(db, record.runID);
    assert nodes[..0] == [];
    hide ViewOf, S.NewCells, Consistent, Keyed;
  }

  lemma NoNodesYet(db: Tables, runID: string)
    requires Consistent(db) && runID !in db.runs
    ensures forall run :: Keyed(runID, [], PutRun(db, runID, run))
  {
    forall n
      ensures (runID, n) !in db.nodes
    {
      assert (runID, n).0 == runID;
    }
  }

  /** The primary key refuses the next row exactly when its id came before. */
  lemma TakenIffRepeated(db: Tables, record: RunRecord, nodes: seq<NodeRecord>, i: nat, tx: Tables)
    requires i < |nodes| && Inserted(db, record, nodes, i, tx) && nodes[i].runID == record.runID
    ensures NodeKeyOf(nodes[i]) in tx.nodes <==> !DistinctIDs(nodes[..i + 1])
    ensures NodeKeyOf(nodes[i]) in tx.nodes ==> !DistinctIDs(nodes)
  {
    hide ViewOf, Consistent, S.NewCells;
    if NodeKeyOf(nodes[i]) in tx.nodes {
      var j :| 0 <= j < i && nodes[..i][j].nodeID == nodes[i].nodeID;
      assert nodes[..i + 1][j] == nodes[j] && nodes[..i + 1][i] == nodes[i];
    } else {
      assert nodes[..i + 1] == nodes[..i] + [nodes[i]];
      forall j | 0 <= j < i
        ensures nodes[j].nodeID != nodes[i].nodeID
      {
        assert nodes[..i][j] == nodes[j];
      }
    }
  }

  lemma InsertedPrefix(db: Tables, record: RunRecord, nodes: seq<NodeRecord>, i: nat, tx: Tables)
    requires i < |nodes| && Inserted(db, record, nodes, i, tx) && nodes[i].runID == record.runID
    requires NodeKeyOf(nodes[i]) !in tx.nodes
    ensures Inserted(db, record, nodes, i + 1, InsertNode(tx, nodes[i]))
  {
    TakenIffRepeated(db, record, nodes, i, tx);
    assert record.runID in tx.runs;
    InsertedView(record.runID, nodes, i, tx, ViewOf(db).cells);
    KeyedNext(record.runID, nodes, i, tx);
    hide Consistent, ViewOf, S.NewCells, DistinctIDs, Keyed;
  }

  lemma KeyedNext(runID: string, nodes: seq<NodeRecord>, i: nat, tx: Tables)
    requires i < |nodes| && nodes[i].runID == runID && Keyed(runID, nodes[..i], tx)
    ensures Keyed(runID, nodes[..i + 1], InsertNode(tx, nodes[i]))
  {
    hide Among;
    forall n
      ensures (runID, n) in InsertNode(tx, nodes[i]).nodes <==> Among(nodes[..i + 1], n)
    {
      AmongNext(nodes, i, n);
    }
  }

  lemma InsertedView(runID: string, nodes: seq<NodeRecord>, i: nat, tx: Tables, cells: map<NodeKey, S.Cell>)
    requires i < |nodes| && nodes[i].runID == runID && NodeKeyOf(nodes[i]) !in tx.nodes
    requires Consistent(tx) && runID in tx.runs
    requires ViewOf(tx).cells == cells + S.NewCells(runID, nodes[..i])
    ensures Consistent(InsertNode(tx, nodes[i]))
    ensures ViewOf(InsertNode(tx, nodes[i])) == ViewOf(tx).(cells := cells + S.NewCells(runID, nodes[..i + 1]))
  {
    InsertNodeView(tx, nodes[i]);
    NothingOwnedYet(tx, NodeKeyOf(nodes[i]));
    S.NewCellsStep(cells, runID, nodes, i);
    hide Consistent, ViewOf, S.NewCells, Own;
  }

  lemma AmongNext(nodes: seq<NodeRecord>, i: nat, n: string)
    requires i < |nodes|
    ensures Among(nodes[..i + 1], n) <==> Among(nodes[..i], n) || nodes[i].nodeID == n
  {
    assert nodes[..i + 1] == nodes[..i] + [nodes[i]];
    if Among(nodes[..i], n) {
      var j :| 0 <= j < i && nodes[..i][j].nodeID == n;
      assert nodes[..i + 1][j].nodeID == n;
    }
    assert nodes[..i + 1][i] == nodes[i];
  }

  lemma InsertedAll(db: Tables, record: RunRecord, nodes: seq<NodeRecord>, tx: Tables)
    requires Inserted(db, record, nodes, |nodes|, tx) && Consistent(db) && record.runID !in db.runs
    ensures Consistent(tx) && DistinctIDs(nodes)
    ensures S.CreateRun(ViewOf(db), record, nodes) == S.Ok(ViewOf(tx))
  {
    assert nodes[..|nodes|] == nodes;
    ViewAt(db, record.runID, "");
    hide ViewOf, Consistent;
  }

  // ---- the rows of CreateRun, whatever runs its nodes belong to ----

  function InsertAll(db: Tables, nodes: seq<NodeRecord>): Tables {
    if nodes == [] then db
    else InsertNode(InsertAll(db, nodes[..|nodes| - 1]), nodes[|nodes| - 1])
  }

  /** No node's primary key is taken, by another node or by a row already there. */
  ghost predicate FreshKeys(db: Tables, nodes: seq<NodeRecord>) {
    && (forall i | 0 <= i < |nodes| :: NodeKeyOf(nodes[i]) !in db.nodes)
    && forall i, j | 0 <= i < j < |nodes| :: NodeKeyOf(nodes[i]) != NodeKeyOf(nodes[j])
  }

  ghost predicate HasKey(nodes: seq<NodeRecord>, k: NodeKey) {
    exists i :: 0 <= i < |nodes| && NodeKeyOf(nodes[i]) == k
  }

  lemma {:induction false} InsertAllKeys(db: Tables, nodes: seq<NodeRecord>, k: NodeKey)
    ensures k in InsertAll(db, nodes).nodes <==> k in db.nodes || HasKey(nodes, k)
  {
    if nodes != [] {
      var n := |nodes| - 1;
      InsertAllKeys(db, nodes[..n], k);
      if HasKey(nodes[..n], k) {
        var i :| 0 <= i < n && NodeKeyOf(nodes[..n][i]) == k;
        assert NodeKeyOf(nodes[i]) == k;
      }
      if HasKey(nodes, k) && NodeKeyOf(nodes[n]) != k {
        var i :| 0 <= i < n && NodeKeyOf(nodes[i]) == k;
        assert NodeKeyOf(nodes[..n][i]) == k;
      }
    }
  }

  lemma SameKeys(db: Tables, record: RunRecord, nodes: seq<NodeRecord>)
    ensures FreshKeys(PutRun(db, record.runID, record), nodes) <==> FreshKeys(db, nodes)
    ensures FreshKeys(db, []) && InsertAll(PutRun(db, record.runID, record), []) == PutRun(db, record.runID, record)
    ensures FreshKeys(PutRun(db, record.runID, record), [])
  {
  }

  /** An INSERT is refused exactly when the keys so far are no longer fresh. */
  lemma RefusedIffTaken(db: Tables, nodes: seq<NodeRecord>, i: nat)
    requires i < |nodes| && FreshKeys(db, nodes[..i])
    ensures NodeKeyOf(nodes[i]) in InsertAll(db, nodes[..i]).nodes <==> !FreshKeys(db, nodes[..i + 1])
    ensures FreshKeys(db, nodes) ==> FreshKeys(db, nodes[..i + 1])
    ensures InsertAll(db, nodes[..i + 1]) == InsertNode(InsertAll(db, nodes[..i]), nodes[i])
  {
    var before, upTo, k := nodes[..i], nodes[..i + 1], NodeKeyOf(nodes[i]);
    InsertAllKeys(db, before, k);
    assert upTo[..i] == before && upTo[i] == nodes[i] && upTo == before + [nodes[i]];
    if HasKey(before, k) {
      var j :| 0 <= j < i && NodeKeyOf(before[j]) == k;
      assert NodeKeyOf(upTo[j]) == NodeKeyOf(upTo[i]);
    } else {
      assert forall j | 0 <= j < i :: NodeKeyOf(before[j]) != k;
    }
  }

  class Registry {
    var db: Tables

    ghost predicate Valid()
      reads this
    {
      Consistent(db)
    }

    ghost function View(): S.Store
      reads this
    {
      ViewOf(db)
    }

    constructor ()
      ensures Valid() && View() == S.Store(map[], map[], map[])
    {
      db := Tables(map[], map[], map[], []);
    }

    method CreateRun(record: RunRecord, nodes: seq<NodeRecord>, fault: Option<nat>) returns (err: Option<S.Error>)
      requires Valid()
      modifies this
      ensures err.Some? ==> db == old(db)
      ensures fault.None? && record.runID in old(db).runs ==> err == Some(S.RunAlreadyExists)
      ensures Matching(record, nodes) ==> Valid()
      ensures Matching(record, nodes) && err.None? ==> S.CreateRun(old(View()), record, nodes) == S.Ok(View())
      ensures Matching(record, nodes) && fault.None? ==>
                (err.None? <==> S.CreateRun(old(View()), record, nodes).Ok? && DistinctIDs(nodes))
      ensures err.None? ==> db == InsertAll(PutRun(old(db), record.runID, record), nodes)
      ensures fault.None? ==>
                (err.None? <==> record.runID !in old(db).runs && FreshKeys(old(db), nodes))
    {
      ViewAt(db, record.runID, "");
      if fault == Some(0) || fault == Some(1) {
        return Some(S.StoreFault);
      }
      var tx := db;
      if record.runID in tx.runs {
        return Some(S.RunAlreadyExists);
      }
      if fault == Some(2) {
        return Some(S.StoreFault);
      }
      InsertedNone(db, record, nodes);
      hide ViewOf, S.NewCells, Inserted;
      tx := PutRun(tx, record.runID, record);
      ghost var started := tx;
      SameKeys(db, record, nodes);
      hide FreshKeys, InsertAll, PutRun;
      assert nodes[..0] == [];
      for i := 0 to |nodes|
        invariant db == old(db)
        invariant tx == InsertAll(started, nodes[..i]) && FreshKeys(started, nodes[..i])
        invariant Matching(record, nodes) ==> Inserted(db, record, nodes, i, tx)
      {
        RefusedIffTaken(started, nodes, i);
        if Matching(record, nodes) {
          TakenIffRepeated(db, record, nodes, i, tx);
        }
        if fault == Some(3 + i) || NodeKeyOf(nodes[i]) in tx.nodes {
          return Some(S.StoreFault);
        }
        if Matching(record, nodes) {
          InsertedPrefix(db, record, nodes, i, tx);
        }
        tx := InsertNode(tx, nodes[i]);
      }
      assert nodes[..|nodes|] == nodes;
      if Matching(record, nodes) {
        InsertedAll(db, record, nodes, tx);
      }
      if fault == Some(3 + |nodes|) {
        return Some(S.StoreFault);
      }
      db := tx;
      return None;
    }

    method GetRun(runID: string) returns (r: S.Result<RunRecord>)
      requires Valid()
      ensures r == if runID in View().runs then S.Ok(View().runs[runID]) else S.Err(S.RunNotFound)
    {
      if runID !in db.runs {
        return S.Err(S.RunNotFound);
      }
      return S.Ok(db.runs[runID].data);
    }

    method GetNode(runID: string, nodeID: string) returns (r: S.Result<NodeRecord>)
      requires Valid()
      ensures r == if S.Present(View(), runID, nodeID) then S.Ok(View().cells[(runID, nodeID)].node)
                   else S.Err(S.Absent(View(), runID))
    {
      ViewAt(db, runID, nodeID);
      return T.GetNode(db, runID, nodeID);
    }

    method GetCurrentAttempt(runID: string, nodeID: string) returns (r: S.Result<Option<AttemptRecord>>)
      requires Valid()
      ensures r == if S.Present(View(), runID, nodeID) then S.Ok(S.GetCurrentAttempt(View().cells[(runID, nodeID)]))
                   else S.Err(S.Absent(View(), runID))
    {
      hide Consistent, ViewOf;
      ViewAt(db, runID, nodeID);
      var found := T.GetNode(db, runID, nodeID);
      if found.Err? {
        return S.Err(found.error);
      }
      var id := found.value.currentAttemptID;
      AttemptAt(db, runID, nodeID, id);
      if id == "" {
        return S.Ok(None);
      }
      return S.Ok(GetAttempt(db, runID, nodeID, id));
    }

    method UpdateRun(runID: string, update: RunRecord -> Option<RunRecord>, fault: Option<nat>)
      returns (err: Option<S.Error>)
      requires Valid()
      modifies this
      ensures Valid()
      ensures err.Some? ==> db == old(db)
      ensures err.None? ==> S.UpdateRun(old(View()), runID, update) == S.Ok(View())
      ensures fault.None? ==> match S.UpdateRun(old(View()), runID, update)
                              case Ok(_) => err.None?
                              case Err(e) => err == Some(e)
    {
      if fault == Some(0) || fault == Some(1) {
        return Some(S.StoreFault);
      }
      var tx := db;
      assert runID in View().runs <==> runID in tx.runs;
      assert runID in tx.runs ==> View().runs[runID] == tx.runs[runID].data;
      if runID !in tx.runs {
        return Some(S.RunNotFound);
      }
      var updated := update(tx.runs[runID].data);
      if updated.None? {
        return Some(S.UpdateRejected);
      }
      UpdateRunView(tx, runID, updated.value);
      hide Consistent, ViewOf;
      tx := PutRun(tx, runID, updated.value);
      if fault == Some(2) || fault == Some(3) {
        return Some(S.StoreFault);
      }
      db := tx;
      return None;
    }

    method UpdateNode(runID: string, nodeID: string, update: NodeRecord -> Option<NodeRecord>, fault: Option<nat>)
      returns (err: Option<S.Error>)
      requires Valid()
      modifies this
      ensures Valid()
      ensures err.Some? ==> db == old(db)
      ensures err.None? ==>
                && S.Present(old(View()), runID, nodeID)
                && var updated := update(old(View()).cells[(runID, nodeID)].node);
                   && updated.Some? && View() == Rewritten(old(View()), updated.value)
                   && (S.UpdateNode(old(View()), runID, nodeID, update) == S.Ok(View())
                       <==> NodeKeyOf(updated.value) == (runID, nodeID))
      ensures fault.None? ==> match S.UpdateNode(old(View()), runID, nodeID, update)
                              case Ok(_) => err.None?
                              case Err(e) => err == Some(e)
    {
      hide Consistent, ViewOf, Rewritten;
      ViewAt(db, runID, nodeID);
      if fault == Some(0) || fault == Some(1) {
        return Some(S.StoreFault);
      }
      var tx := db;
      var found := T.GetNode(tx, runID, nodeID);
      if found.Err? {
        return Some(found.error);
      }
      var updated := update(found.value);
      if updated.None? {
        return Some(S.UpdateRejected);
      }
      WriteView(tx, updated.value);
      RewriteHitsTheNodeReadIffIdsKept(ViewOf(tx), runID, nodeID, updated.value);
      tx := WriteNode(tx, updated.value);
      if fault == Some(2) || fault == Some(3) {
        return Some(S.StoreFault);
      }
      db := tx;
      return None;
    }

    method UpsertAttempt(record: AttemptRecord, fault: Option<nat>) returns (err: Option<S.Error>)
      requires Valid()
      modifies this
      ensures Valid()
      ensures err.Some? ==> db == old(db)
      ensures err.None? ==> S.UpsertAttempt(old(View()), record) == S.Ok(View())
      ensures fault.None? ==> match S.UpsertAttempt(old(View()), record)
                              case Ok(_) => err.None?
                              case Err(e) => err == Some(e)
    {
      hide Consistent, ViewOf;
      ViewAt(db, record.runID, record.nodeID);
      if fault == Some(0) || fault == Some(1) {
        return Some(S.StoreFault);
      }
      var tx := db;
      if record.runID !in tx.runs {
        return Some(S.RunNotFound);
      }
      if fault == Some(2) {
        return Some(S.StoreFault);
      }
      if (record.runID, record.nodeID) !in tx.nodes {
        return Some(S.NodeNotFound);
      }
      WriteAttemptView(tx, record);
      tx := WriteAttempt(tx, record);
      if fault == Some(3) || fault == Some(4) {
        return Some(S.StoreFault);
      }
      db := tx;
      return None;
    }

    method AllocateCurrentAttempt(runID: string, nodeID: string, fault: Option<nat>)
      returns (r: S.Result<AttemptRecord>)
      requires Valid()
      modifies this
      ensures Valid()
      ensures r.Err? ==> db == old(db)
      ensures r.Ok? ==>
                && S.Allocate(old(View()), runID, nodeID) == S.Ok(View())
                && (runID, nodeID) in View().cells
                && S.GetCurrentAttempt(View().cells[(runID, nodeID)]) == Some(r.value)
      ensures fault.None? ==> match S.Allocate(old(View()), runID, nodeID)
                              case Ok(_) => r.Ok?
                              case Err(e) => r == S.Err(e)
    {
      hide Consistent, ViewOf;
      ViewAt(db, runID, nodeID);
      if fault == Some(0) || fault == Some(1) {
        return S.Err(S.StoreFault);
      }
      var tx := db;
      var found := T.GetNode(tx, runID, nodeID);
      if found.Err? {
        return S.Err(found.error);
      }
      var node := found.value;
      if node.currentAttemptID != "" {
        if fault == Some(2) {
          return S.Err(S.StoreFault);
        }
        AttemptAt(tx, runID, nodeID, node.currentAttemptID);
        var cur := GetAttempt(tx, runID, nodeID, node.currentAttemptID);
        if cur.Some? && !cur.value.status.IsTerminal() {
          return S.Err(S.AttemptNonTerminal);
        }
      }
      var next := node.realizationCount + 1;
      var attemptID := DeterministicAttemptID(runID, nodeID, next);
      var attempt := BareAttempt(runID, nodeID, attemptID, Prepared, true, false, "", "");
      tx := WriteAttempt(tx, attempt);
      node := node.(realizationCount := next, currentAttemptID := attemptID, status := Ready, started := true);
      WriteBothView(db, attempt, node);
      tx := WriteNode(tx, node);
      if fault == Some(3) || fault == Some(4) || fault == Some(5) {
        return S.Err(S.StoreFault);
      }
      db := tx;
      return S.Ok(attempt);
    }

    method OpenSemanticAttempt(runID: string, nodeID: string, attemptID: string, fault: Option<nat>)
      returns (err: Option<S.Error>)
      requires Valid()
      modifies this
      ensures Valid()
      ensures err.Some? ==> db == old(db)
      ensures err.None? ==> S.OpenSemanticAttempt(old(View()), runID, nodeID, attemptID) == S.Ok(View())
      ensures fault.None? ==> match S.OpenSemanticAttempt(old(View()), runID, nodeID, attemptID)
                              case Ok(_) => err.None?
                              case Err(e) => err == Some(e)
    {
      hide Consistent, ViewOf;
      ViewAt(db, runID, nodeID);
      AttemptAt(db, runID, nodeID, attemptID);
      if fault == Some(0) || fault == Some(1) {
        return Some(S.StoreFault);
      }
      var tx := db;
      var found := T.GetNode(tx, runID, nodeID);
      if found.Err? {
        return Some(found.error);
      }
      var node := found.value;
      if node.currentAttemptID != attemptID {
        return Some(S.AttemptNotFound);
      }
      if fault == Some(2) {
        return Some(S.StoreFault);
      }
      var attempt := GetAttempt(tx, runID, nodeID, attemptID);
      if attempt.None? {
        return Some(S.AttemptNotFound);
      }
      var fenced := attempt.value.(fenceOpened := true);
      tx := WriteAttempt(tx, fenced);
      node := node.(attemptCount := node.attemptCount + 1);
      WriteBothView(db, fenced, node);
      tx := WriteNode(tx, node);
      if fault == Some(3) || fault == Some(4) || fault == Some(5) {
        return Some(S.StoreFault);
      }
      db := tx;
      return None;
    }

    method MutateAttempt(runID: string, nodeID: string, attemptID: string, m: S.Mutation, fault: Option<nat>)
      returns (err: Option<S.Error>)
      requires Valid()
      modifies this
      ensures Valid()
      ensures err.Some? ==> db == old(db)
      ensures err.None? ==> S.MutateAttempt(old(View()), runID, nodeID, attemptID, m) == S.Ok(View())
      ensures fault.None? ==>
                err == if S.MutateAttempt(old(View()), runID, nodeID, attemptID, m).Ok? then None
                       else Some(S.AttemptNotFound)
      ensures err.None? ==>
                && S.HasAttempt(old(View()), runID, nodeID, attemptID)
                && S.RecordReplaced(old(View()), View(), runID, nodeID, attemptID,
                     match m
                     case OpenFence => S.AttemptIn(old(View()), runID, nodeID, attemptID).(fenceOpened := true)
                     case RequestCancellation(reason) =>
                       S.AttemptIn(old(View()), runID, nodeID, attemptID).(cancelRequested := true, cancelReason := reason)
                     case CompleteProcess => S.AttemptIn(old(View()), runID, nodeID, attemptID).(processCompleted := true))
    {
      hide Consistent, ViewOf;
      ViewAt(db, runID, nodeID);
      AttemptAt(db, runID, nodeID, attemptID);
      if fault == Some(0) || fault == Some(1) {
        return Some(S.StoreFault);
      }
      var tx := db;
      var attempt := GetAttempt(tx, runID, nodeID, attemptID);
      if attempt.None? {
        return Some(S.AttemptNotFound);
      }
      var mutated := S.Mutate(attempt.value, m);
      WriteAttemptView(tx, mutated);
      tx := WriteAttempt(tx, mutated);
      if fault == Some(2) || fault == Some(3) {
        return Some(S.StoreFault);
      }
      db := tx;
      return None;
    }

    /** Afterwards the fence is on record, and every other field is as before. */
    method PersistSubmissionFence(runID: string, nodeID: string, attemptID: string, fault: Option<nat>)
      returns (err: Option<S.Error>)
      requires Valid()
      modifies this
      ensures Valid()
      ensures err.Some? ==> db == old(db)
      ensures fault.None? ==> (err.None? <==> S.HasAttempt(old(View()), runID, nodeID, attemptID))
      ensures err.Some? ==> View() == old(View())
      ensures err.None? ==>
                && S.HasAttempt(old(View()), runID, nodeID, attemptID)
                && S.RecordReplaced(old(View()), View(), runID, nodeID, attemptID,
                     S.AttemptIn(old(View()), runID, nodeID, attemptID).(fenceOpened := true))
    {
      hide Consistent, ViewOf;
      err := MutateAttempt(runID, nodeID, attemptID, S.OpenFence, fault);
    }

    /** Afterwards the request and its reason are on record, and every other field is as before. */
    method PersistCancellationIntent(runID: string, nodeID: string, attemptID: string, reason: string, fault: Option<nat>)
      returns (err: Option<S.Error>)
      requires Valid()
      modifies this
      ensures Valid()
      ensures err.Some? ==> db == old(db)
      ensures fault.None? ==> (err.None? <==> S.HasAttempt(old(View()), runID, nodeID, attemptID))
      ensures err.Some? ==> View() == old(View())
      ensures err.None? ==>
                && S.HasAttempt(old(View()), runID, nodeID, attemptID)
                && S.RecordReplaced(old(View()), View(), runID, nodeID, attemptID,
                     S.AttemptIn(old(View()), runID, nodeID, attemptID).(cancelRequested := true, cancelReason := reason))
    {
      hide Consistent, ViewOf;
      err := MutateAttempt(runID, nodeID, attemptID, S.RequestCancellation(reason), fault);
    }

    /** Afterwards the completed process is on record, and every other field is as before. */
    method PersistProcessCompleted(runID: string, nodeID: string, attemptID: string, fault: Option<nat>)
      returns (err: Option<S.Error>)
      requires Valid()
      modifies this
      ensures Valid()
      ensures err.Some? ==> db == old(db)
      ensures fault.None? ==> (err.None? <==> S.HasAttempt(old(View()), runID, nodeID, attemptID))
      ensures err.Some? ==> View() == old(View())
      ensures err.None? ==>
                && S.HasAttempt(old(View()), runID, nodeID, attemptID)
                && S.RecordReplaced(old(View()), View(), runID, nodeID, attemptID,
                     S.AttemptIn(old(View()), runID, nodeID, attemptID).(processCompleted := true))
    {
      hide Consistent, ViewOf;
      err := MutateAttempt(runID, nodeID, attemptID, S.CompleteProcess, fault);
    }

    method PersistBackendHandle(runID: string, nodeID: string, attemptID: string, handleJSON: string,
                                fault: Option<nat>)
      returns (err: Option<S.Error>)
      requires Valid()
      modifies this
      ensures Valid()
      ensures err.Some? ==> db == old(db)
      ensures err.None? ==> S.PersistBackendHandle(old(View()), runID, nodeID, attemptID, handleJSON) == S.Ok(View())
      ensures fault.None? ==>
                err == if S.PersistBackendHandle(old(View()), runID, nodeID, attemptID, handleJSON).Ok? then None
                       else Some(S.AttemptNotFound)
    {
      hide Consistent, ViewOf;
      ViewAt(db, runID, nodeID);
      AttemptAt(db, runID, nodeID, attemptID);
      if fault == Some(0) || fault == Some(1) {
        return Some(S.StoreFault);
      }
      var tx := db;
      var attempt := GetAttempt(tx, runID, nodeID, attemptID);
      if attempt.None? {
        return Some(S.AttemptNotFound);
      }
      var handled := attempt.value.(handleJSON := handleJSON);
      WriteAttemptView(tx, handled);
      tx := WriteAttempt(tx, handled);
      if fault == Some(2) || fault == Some(3) {
        return Some(S.StoreFault);
      }
      var found := T.GetNode(tx, runID, nodeID);
      var node := found.value;
      if node.currentAttemptID == attemptID {
        node := node.(handleJSON := handleJSON);
        WriteBothView(db, handled, node);
        tx := WriteNode(tx, node);
      }
      if fault == Some(4) || fault == Some(5) {
        return Some(S.StoreFault);
      }
      db := tx;
      return None;
    }

    method AppendEvent(event: S.EventRecord, fault: Option<nat>) returns (err: Option<S.Error>)
      requires Valid()
      modifies this
      ensures Valid()
      ensures err.Some? ==> db == old(db)
      ensures err.None? ==> S.AppendEvent(old(View()), event) == S.Ok(View())
      ensures fault.None? ==> match S.AppendEvent(old(View()), event)
                              case Ok(_) => err.None?
                              case Err(e) => err == Some(e)
    {
      ViewAt(db, event.runID, "");
      hide Consistent, ViewOf;
      if fault == Some(0) || fault == Some(1) {
        return Some(S.StoreFault);
      }
      var tx := db;
      if event.runID !in tx.runs {
        return Some(S.RunNotFound);
      }
      InsertEventView(tx, event);
      tx := InsertEvent(tx, event);
      if fault == Some(2) || fault == Some(3) {
        return Some(S.StoreFault);
      }
      db := tx;
      return None;
    }
  }

  lemma WriteView(db: Tables, node: NodeRecord)
    requires Consistent(db)
    ensures Consistent(WriteNode(db, node)) && ViewOf(WriteNode(db, node)) == Rewritten(ViewOf(db), node)
  {
    ViewAt(db, node.runID, node.nodeID);
    if NodeKeyOf(node) in db.nodes {
      WriteNodeView(db, node);
    }
  }
}
