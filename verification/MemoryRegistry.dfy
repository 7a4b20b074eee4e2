/** The map-based registry of pkg/registry/memory.go. Every method holds the lock for its
  * whole body, so each is one atomic step; each is proved to do what Store says.
  */
module MemoryRegistry {
  import opened Spec
  import opened AttemptId
  import S = Store

  type NodeMap = map<string, map<string, NodeRecord>>
  type AttemptMap = map<string, map<string, map<string, AttemptRecord>>>

  /** The two nested maps describe the same nodes. */
  ghost predicate Aligned(nodes: NodeMap, attempts: AttemptMap) {
    && attempts.Keys == nodes.Keys
    && forall r | r in nodes :: attempts[r].Keys == nodes[r].Keys
  }

  ghost predicate Has(nodes: NodeMap, r: string, n: string) {
    r in nodes && n in nodes[r]
  }

  ghost function Cells(nodes: NodeMap, attempts: AttemptMap): map<(string, string), S.Cell>
    requires Aligned(nodes, attempts)
  {
    map r, n | r in nodes && n in nodes[r] :: (r, n) := S.Cell(nodes[r][n], attempts[r][n])
  }

  lemma CellsAt(nodes: NodeMap, attempts: AttemptMap, r: string, n: string)
    requires Aligned(nodes, attempts)
    ensures r in nodes <==> r in attempts
    ensures Has(nodes, r, n) <==> r in attempts && n in attempts[r]
    ensures (r, n) in Cells(nodes, attempts) <==> Has(nodes, r, n)
    ensures Has(nodes, r, n) ==> Cells(nodes, attempts)[(r, n)] == S.Cell(nodes[r][n], attempts[r][n])
  {
  }

  lemma KeysOfUpdate<V>(m: map<string, V>, k: string, v: V)
    ensures m[k := v].Keys == m.Keys + {k}
  {
  }

  /** Replacing the entries of one node in both nested maps changes that cell only. */
  lemma PutCell(nodes: NodeMap, attempts: AttemptMap, r: string, n: string,
                node: NodeRecord, own: map<string, AttemptRecord>)
    requires Aligned(nodes, attempts) && r in nodes
    ensures var nodes' := nodes[r := nodes[r][n := node]];
            var attempts' := attempts[r := attempts[r][n := own]];
            Aligned(nodes', attempts')
            && Cells(nodes', attempts') == Cells(nodes, attempts)[(r, n) := S.Cell(node, own)]
  {
    var nodes' := nodes[r := nodes[r][n := node]];
    var attempts' := attempts[r := attempts[r][n := own]];
    assert Aligned(nodes', attempts');
    hide Cells, Aligned;
    forall k: (string, string)
      ensures k in Cells(nodes', attempts') <==> k in Cells(nodes, attempts) || k == (r, n)
      ensures k in Cells(nodes', attempts') ==>
                Cells(nodes', attempts')[k] == if k == (r, n) then S.Cell(node, own) else Cells(nodes, attempts)[k]
    {
      PutCellAt(nodes, attempts, r, n, node, own, k.0, k.1);
      assert k == (k.0, k.1);
    }
  }

  lemma PutCellAt(nodes: NodeMap, attempts: AttemptMap, r: string, n: string,
                  node: NodeRecord, own: map<string, AttemptRecord>, q: string, m: string)
    requires Aligned(nodes, attempts) && r in nodes
    requires Aligned(nodes[r := nodes[r][n := node]], attempts[r := attempts[r][n := own]])
    ensures var after := Cells(nodes[r := nodes[r][n := node]], attempts[r := attempts[r][n := own]]);
            if q == r && m == n then (q, m) in after && after[(q, m)] == S.Cell(node, own)
            else ((q, m) in after <==> (q, m) in Cells(nodes, attempts))
                 && ((q, m) in after ==> after[(q, m)] == Cells(nodes, attempts)[(q, m)])
  {
    var nodes', attempts' := nodes[r := nodes[r][n := node]], attempts[r := attempts[r][n := own]];
    hide Cells, Aligned;
    CellsAt(nodes, attempts, q, m);
    CellsAt(nodes', attempts', q, m);
  }

  /** A run that owns no node yet contributes no cell. */
  lemma NewRunCells(nodes: NodeMap, attempts: AttemptMap, r: string)
    requires Aligned(nodes, attempts) && r !in nodes
    ensures Aligned(nodes[r := map[]], attempts[r := map[]])
    ensures Cells(nodes[r := map[]], attempts[r := map[]]) == Cells(nodes, attempts)
  {
    hide Cells;
    var nodes', attempts' := nodes[r := map[]], attempts[r := map[]];
    assert Aligned(nodes', attempts');
    hide Aligned;
    forall k: (string, string)
      ensures k in Cells(nodes', attempts') <==> k in Cells(nodes, attempts)
      ensures k in Cells(nodes, attempts) ==> Cells(nodes', attempts')[k] == Cells(nodes, attempts)[k]
    {
      assert k == (k.0, k.1);
      CellsAt(nodes, attempts, k.0, k.1);
      CellsAt(nodes', attempts', k.0, k.1);
    }
    assert Cells(nodes', attempts') == Cells(nodes, attempts);
  }

  lemma PutNodeCell(nodes: NodeMap, attempts: AttemptMap, r: string, n: string, node: NodeRecord)
    requires Aligned(nodes, attempts) && Has(nodes, r, n)
    ensures var nodes' := nodes[r := nodes[r][n := node]];
            Aligned(nodes', attempts)
            && Cells(nodes', attempts) == Cells(nodes, attempts)[(r, n) := S.Cell(node, attempts[r][n])]
  {
    PutCell(nodes, attempts, r, n, node, attempts[r][n]);
    assert attempts[r][n := attempts[r][n]] == attempts[r];
    assert attempts[r := attempts[r]] == attempts;
  }

  lemma PutAttemptsCell(nodes: NodeMap, attempts: AttemptMap, r: string, n: string,
                        own: map<string, AttemptRecord>)
    requires Aligned(nodes, attempts) && Has(nodes, r, n)
    ensures var attempts' := attempts[r := attempts[r][n := own]];
            Aligned(nodes, attempts')
            && Cells(nodes, attempts') == Cells(nodes, attempts)[(r, n) := S.Cell(nodes[r][n], own)]
  {
    PutCell(nodes, attempts, r, n, nodes[r][n], own);
    assert nodes[r][n := nodes[r][n]] == nodes[r];
    assert nodes[r := nodes[r]] == nodes;
  }

  class Registry {
    var runs: map<string, RunRecord>
    var nodes: NodeMap
    var attempts: AttemptMap
    var events: map<string, seq<S.EventRecord>>

    ghost predicate Valid()
      reads this
    {
      nodes.Keys == runs.Keys && events.Keys == runs.Keys && Aligned(nodes, attempts)
    }

    ghost function View(): S.Store
      reads this
      requires Valid()
    {
      S.Store(runs, Cells(nodes, attempts), events)
    }

    lemma ViewIs()
      requires Valid()
      ensures View() == S.Store(runs, Cells(nodes, attempts), events)
    {
    }

    constructor ()
      ensures Valid() && View() == S.Store(map[], map[], map[])
    {
      runs, nodes, attempts, events := map[], map[], map[], map[];
    }

    method CreateRun(record: RunRecord, newNodes: seq<NodeRecord>) returns (err: Option<S.Error>)
      requires Valid()
      modifies this
      ensures Valid()
      ensures match S.CreateRun(old(View()), record, newNodes)
              case Ok(st) => err.None? && View() == st
              case Err(e) => err == Some(e) && View() == old(View())
    {
      var runID := record.runID;
      if runID in runs {
        return Some(S.RunAlreadyExists);
      }
      ghost var before, cells := View(), Cells(nodes, attempts);
      assert before.runs == runs && before.cells == cells && before.events == events;
      hide Cells, Aligned, S.NewCells, View;
      KeysOfUpdate(runs, runID, record);
      KeysOfUpdate(events, runID, []);
      AddRun(runID);
      AddNodes(runID, newNodes);
      runs := runs[runID := record];
      events := events[runID := []];
      ViewIs();
      return None;
    }

    method AddRun(runID: string)
      requires Aligned(nodes, attempts) && runID !in nodes
      modifies this`nodes, this`attempts
      ensures nodes.Keys == old(nodes.Keys) + {runID} && Aligned(nodes, attempts)
      ensures Cells(nodes, attempts) == old(Cells(nodes, attempts))
    {
      NewRunCells(nodes, attempts, runID);
      nodes := nodes[runID := map[]];
      attempts := attempts[runID := map[]];
    }

    method AddNode(runID: string, node: NodeRecord)
      requires Aligned(nodes, attempts) && runID in nodes
      modifies this`nodes, this`attempts
      ensures nodes.Keys == old(nodes.Keys) && Aligned(nodes, attempts)
      ensures Cells(nodes, attempts) == old(Cells(nodes, attempts))[(runID, node.nodeID) := S.Cell(node, map[])]
    {
      PutCell(nodes, attempts, runID, node.nodeID, node, map[]);
      nodes := nodes[runID := nodes[runID][node.nodeID := node]];
      attempts := attempts[runID := attempts[runID][node.nodeID := map[]]];
    }

    method AddNodes(runID: string, newNodes: seq<NodeRecord>)
      requires Aligned(nodes, attempts) && runID in nodes
      modifies this`nodes, this`attempts
      ensures nodes.Keys == old(nodes.Keys) && Aligned(nodes, attempts)
      ensures Cells(nodes, attempts) == old(Cells(nodes, attempts)) + S.NewCells(runID, newNodes)
    {
      ghost var cells := Cells(nodes, attempts);
      hide Cells, Aligned, S.NewCells;
      S.NewCellsStep(cells, runID, newNodes, 0);
      for i := 0 to |newNodes|
        invariant nodes.Keys == old(nodes.Keys) && Aligned(nodes, attempts)
        invariant Cells(nodes, attempts) == cells + S.NewCells(runID, newNodes[..i])
      {
        var node := newNodes[i];
        S.NewCellsStep(cells, runID, newNodes, i);
        AddNode(runID, node);
      }
      assert newNodes == newNodes[..|newNodes|];
    }

    method GetRun(runID: string) returns (r: S.Result<RunRecord>)
      requires Valid()
      ensures r == if runID in View().runs then S.Ok(View().runs[runID]) else S.Err(S.RunNotFound)
    {
      if runID !in runs {
        return S.Err(S.RunNotFound);
      }
      return S.Ok(runs[runID]);
    }

    method GetNode(runID: string, nodeID: string) returns (r: S.Result<NodeRecord>)
      requires Valid()
      ensures r == if S.Present(View(), runID, nodeID) then S.Ok(View().cells[(runID, nodeID)].node)
                   else S.Err(S.Absent(View(), runID))
    {
      if runID !in nodes {
        return S.Err(S.RunNotFound);
      }
      if nodeID !in nodes[runID] {
        return S.Err(S.NodeNotFound);
      }
      return S.Ok(nodes[runID][nodeID]);
    }

    method GetCurrentAttempt(runID: string, nodeID: string) returns (r: S.Result<Option<AttemptRecord>>)
      requires Valid()
      ensures r == if S.Present(View(), runID, nodeID) then S.Ok(S.GetCurrentAttempt(View().cells[(runID, nodeID)]))
                   else S.Err(S.Absent(View(), runID))
    {
      var found := GetNode(runID, nodeID);
      if found.Err? {
        return S.Err(found.error);
      }
      var id := found.value.currentAttemptID;
      if id == "" || id !in attempts[runID][nodeID] {
        return S.Ok(None);
      }
      return S.Ok(Some(attempts[runID][nodeID][id]));
    }

    method UpdateRun(runID: string, update: RunRecord -> Option<RunRecord>) returns (err: Option<S.Error>)
      requires Valid()
      modifies this
      ensures Valid()
      ensures match S.UpdateRun(old(View()), runID, update)
              case Ok(st) => err.None? && View() == st
              case Err(e) => err == Some(e) && View() == old(View())
    {
      if runID !in runs {
        return Some(S.RunNotFound);
      }
      var updated := update(runs[runID]);
      if updated.None? {
        return Some(S.UpdateRejected);
      }
      runs := runs[runID := updated.value];
      return None;
    }

    method UpdateNode(runID: string, nodeID: string, update: NodeRecord -> Option<NodeRecord>)
      returns (err: Option<S.Error>)
      requires Valid()
      modifies this
      ensures Valid()
      ensures match S.UpdateNode(old(View()), runID, nodeID, update)
              case Ok(st) => err.None? && View() == st
              case Err(e) => err == Some(e) && View() == old(View())
    {
      var found := GetNode(runID, nodeID);
      if found.Err? {
        return Some(found.error);
      }
      var updated := update(found.value);
      if updated.None? {
        return Some(S.UpdateRejected);
      }
      PutNode(runID, nodeID, updated.value);
      return None;
    }

    method UpsertAttempt(record: AttemptRecord) returns (err: Option<S.Error>)
      requires Valid()
      modifies this
      ensures Valid()
      ensures match S.UpsertAttempt(old(View()), record)
              case Ok(st) => err.None? && View() == st
              case Err(e) => err == Some(e) && View() == old(View())
    {
      if record.runID !in attempts {
        return Some(S.RunNotFound);
      }
      if record.nodeID !in attempts[record.runID] {
        return Some(S.NodeNotFound);
      }
      PutAttempt(record.runID, record.nodeID, record.attemptID, record);
      return None;
    }

    method PutAttempt(runID: string, nodeID: string, attemptID: string, record: AttemptRecord)
      requires Valid() && Has(nodes, runID, nodeID)
      modifies this`attempts
      ensures Valid() && S.Present(old(View()), runID, nodeID)
      ensures View() == S.WithCell(old(View()), runID, nodeID,
                                   S.PutAttemptCell(old(View()).cells[(runID, nodeID)], attemptID, record))
    {
      var own := attempts[runID][nodeID][attemptID := record];
      PutAttemptsCell(nodes, attempts, runID, nodeID, own);
      attempts := attempts[runID := attempts[runID][nodeID := own]];
    }

    method PutNode(runID: string, nodeID: string, node: NodeRecord)
      requires Valid() && Has(nodes, runID, nodeID)
      modifies this`nodes
      ensures Valid() && S.Present(old(View()), runID, nodeID)
      ensures View() == S.WithCell(old(View()), runID, nodeID, old(View()).cells[(runID, nodeID)].(node := node))
    {
      PutNodeCell(nodes, attempts, runID, nodeID, node);
      nodes := nodes[runID := nodes[runID][nodeID := node]];
    }

    method AllocateCurrentAttempt(runID: string, nodeID: string) returns (r: S.Result<AttemptRecord>)
      requires Valid()
      modifies this
      ensures Valid()
      ensures match S.Allocate(old(View()), runID, nodeID)
              case Ok(st) =>
                && View() == st
                && r == S.Ok(st.cells[(runID, nodeID)].attempts[st.cells[(runID, nodeID)].node.currentAttemptID])
              case Err(e) => r == S.Err(e) && View() == old(View())
    {
      hide Cells, Aligned, DeterministicAttemptID;
      CellsAt(nodes, attempts, runID, nodeID);
      var found := GetNode(runID, nodeID);
      if found.Err? {
        return S.Err(found.error);
      }
      var node := found.value;
      if node.currentAttemptID != "" && node.currentAttemptID in attempts[runID][nodeID] {
        if !attempts[runID][nodeID][node.currentAttemptID].status.IsTerminal() {
          return S.Err(S.AttemptNonTerminal);
        }
      }
      var next := node.realizationCount + 1;
      var attemptID := DeterministicAttemptID(runID, nodeID, next);
      var attempt := BareAttempt(runID, nodeID, attemptID, Prepared, true, false, "", "");
      PutAttempt(runID, nodeID, attemptID, attempt);
      node := node.(realizationCount := next, currentAttemptID := attemptID, status := Ready, started := true);
      PutNode(runID, nodeID, node);
      return S.Ok(attempt);
    }

    method OpenSemanticAttempt(runID: string, nodeID: string, attemptID: string) returns (err: Option<S.Error>)
      requires Valid()
      modifies this
      ensures Valid()
      ensures match S.OpenSemanticAttempt(old(View()), runID, nodeID, attemptID)
              case Ok(st) => err.None? && View() == st
              case Err(e) => err == Some(e) && View() == old(View())
    {
      hide Cells, Aligned;
      CellsAt(nodes, attempts, runID, nodeID);
      var found := GetNode(runID, nodeID);
      if found.Err? {
        return Some(found.error);
      }
      var node := found.value;
      if node.currentAttemptID != attemptID {
        return Some(S.AttemptNotFound);
      }
      err := MutateAttempt(runID, nodeID, attemptID, S.OpenFence);
      if err.Some? {
        return;
      }
      PutNode(runID, nodeID, node.(attemptCount := node.attemptCount + 1));
    }

    /** lockedMutateAttempt, which PersistSubmissionFence, PersistCancellationIntent and
      * PersistProcessCompleted consist of. */
    method MutateAttempt(runID: string, nodeID: string, attemptID: string, m: S.Mutation)
      returns (err: Option<S.Error>)
      requires Valid()
      modifies this`attempts
      ensures Valid()
      ensures match S.MutateAttempt(old(View()), runID, nodeID, attemptID, m)
              case Ok(st) => err.None? && View() == st
              case Err(e) => err == Some(e) && View() == old(View())
      ensures err.None? ==>
                && S.HasAttempt(old(View()), runID, nodeID, attemptID)
                && S.RecordReplaced(old(View()), View(), runID, nodeID, attemptID,
                     match m
                     case OpenFence => S.AttemptIn(old(View()), runID, nodeID, attemptID).(fenceOpened := true)
                     case RequestCancellation(reason) =>
                       S.AttemptIn(old(View()), runID, nodeID, attemptID).(cancelRequested := true, cancelReason := reason)
                     case CompleteProcess => S.AttemptIn(old(View()), runID, nodeID, attemptID).(processCompleted := true))
    {
      if runID !in attempts {
        return Some(S.RunNotFound);
      }
      if nodeID !in attempts[runID] {
        return Some(S.NodeNotFound);
      }
      if attemptID !in attempts[runID][nodeID] {
        return Some(S.AttemptNotFound);
      }
      PutAttempt(runID, nodeID, attemptID, S.Mutate(attempts[runID][nodeID][attemptID], m));
      return None;
    }

    /** Afterwards the fence is on record, and every other field is as before. */
    method PersistSubmissionFence(runID: string, nodeID: string, attemptID: string)
      returns (err: Option<S.Error>)
      requires Valid()
      modifies this`attempts
      ensures Valid()
      ensures err.None? <==> S.HasAttempt(old(View()), runID, nodeID, attemptID)
      ensures err.Some? ==> View() == old(View())
      ensures err.None? ==>
                && S.HasAttempt(old(View()), runID, nodeID, attemptID)
                && S.RecordReplaced(old(View()), View(), runID, nodeID, attemptID,
                     S.AttemptIn(old(View()), runID, nodeID, attemptID).(fenceOpened := true))
    {
      hide Cells, Aligned, View;
      err := MutateAttempt(runID, nodeID, attemptID, S.OpenFence);
    }

    /** Afterwards the request and its reason are on record, and every other field is as before. */
    method PersistCancellationIntent(runID: string, nodeID: string, attemptID: string, reason: string)
      returns (err: Option<S.Error>)
      requires Valid()
      modifies this`attempts
      ensures Valid()
      ensures err.None? <==> S.HasAttempt(old(View()), runID, nodeID, attemptID)
      ensures err.Some? ==> View() == old(View())
      ensures err.None? ==>
                && S.HasAttempt(old(View()), runID, nodeID, attemptID)
                && S.RecordReplaced(old(View()), View(), runID, nodeID, attemptID,
                     S.AttemptIn(old(View()), runID, nodeID, attemptID).(cancelRequested := true, cancelReason := reason))
    {
      hide Cells, Aligned, View;
      err := MutateAttempt(runID, nodeID, attemptID, S.RequestCancellation(reason));
    }

    /** Afterwards the completed process is on record, and every other field is as before. */
    method PersistProcessCompleted(runID: string, nodeID: string, attemptID: string)
      returns (err: Option<S.Error>)
      requires Valid()
      modifies this`attempts
      ensures Valid()
      ensures err.None? <==> S.HasAttempt(old(View()), runID, nodeID, attemptID)
      ensures err.Some? ==> View() == old(View())
      ensures err.None? ==>
                && S.HasAttempt(old(View()), runID, nodeID, attemptID)
                && S.RecordReplaced(old(View()), View(), runID, nodeID, attemptID,
                     S.AttemptIn(old(View()), runID, nodeID, attemptID).(processCompleted := true))
    {
      hide Cells, Aligned, View;
      err := MutateAttempt(runID, nodeID, attemptID, S.CompleteProcess);
    }

    method PersistBackendHandle(runID: string, nodeID: string, attemptID: string, handleJSON: string)
      returns (err: Option<S.Error>)
      requires Valid()
      modifies this
      ensures Valid()
      ensures match S.PersistBackendHandle(old(View()), runID, nodeID, attemptID, handleJSON)
              case Ok(st) => err.None? && View() == st
              case Err(e) => err == Some(e) && View() == old(View())
    {
      hide Cells, Aligned;
      CellsAt(nodes, attempts, runID, nodeID);
      if runID !in attempts {
        return Some(S.RunNotFound);
      }
      if nodeID !in attempts[runID] {
        return Some(S.NodeNotFound);
      }
      if attemptID !in attempts[runID][nodeID] {
        return Some(S.AttemptNotFound);
      }
      PutAttempt(runID, nodeID, attemptID, attempts[runID][nodeID][attemptID].(handleJSON := handleJSON));
      var node := nodes[runID][nodeID];
      if node.currentAttemptID == attemptID {
        PutNode(runID, nodeID, node.(handleJSON := handleJSON));
      }
      return None;
    }

    method AppendEvent(event: S.EventRecord) returns (err: Option<S.Error>)
      requires Valid()
      modifies this
      ensures Valid()
      ensures match S.AppendEvent(old(View()), event)
              case Ok(st) => err.None? && View() == st
              case Err(e) => err == Some(e) && View() == old(View())
    {
      if event.runID !in runs {
        return Some(S.RunNotFound);
      }
      events := events[event.runID := events[event.runID] + [event]];
      return None;
    }
  }
}
