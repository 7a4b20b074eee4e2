/** finalizeRun: how the statuses of the nodes become the status of the run. */
module RunFold {
  import opened Spec

  datatype Counters = Counters(
    totalNodes: nat, succeededNodes: nat, failedNodes: nat,
    canceledNodes: nat, skippedNodes: nat, runningNodes: nat)

  /** The verdict on a bag of node statuses: no order of the nodes is involved. */
  function Verdict(runCanceled: bool, nodes: multiset<NodeStatus>, graphOk: bool): (v: RunStatus)
    ensures v == RunCanceled <==> runCanceled || (Canceled in nodes && Failed !in nodes)
    ensures v == RunFailed <==> !runCanceled && (Failed in nodes || (Canceled !in nodes && !graphOk))
    ensures v == RunSucceeded <==> !runCanceled && Failed !in nodes && Canceled !in nodes && graphOk
  {
    if runCanceled then RunCanceled
    else if Failed in nodes then RunFailed
    else if Canceled in nodes then RunCanceled
    else if !graphOk then RunFailed
    else RunSucceeded
  }

  function StopCauseOf(s: RunStatus): (cause: string)
    ensures s == RunFailed <==> cause == "failed"
    ensures s == RunCanceled <==> cause == "canceled"
    ensures s != RunFailed && s != RunCanceled <==> cause == "finished"
  {
    match s
    case RunFailed => "failed"
    case RunCanceled => "canceled"
    case _ => "finished"
  }

  predicate Counts(c: Counters, nodes: multiset<NodeStatus>) {
    c.totalNodes == |nodes| && Tallied(c, nodes)
  }

  predicate Tallied(c: Counters, nodes: multiset<NodeStatus>) {
    && c.succeededNodes == nodes[Succeeded]
    && c.failedNodes == nodes[Failed]
    && c.canceledNodes == nodes[Canceled]
    && c.skippedNodes == nodes[Skipped]
    && c.runningNodes == nodes[Running] + nodes[Starting] + nodes[Releasing] + nodes[Ready]
  }

  /** The loop of finalizeRun over the listed nodes and the two overrides after it. */
  method FoldNodes(runCanceled: bool, nodes: seq<NodeStatus>, succeeded: bool)
    returns (status: RunStatus, stopCause: string, counters: Counters)
    ensures status == Verdict(runCanceled, multiset(nodes), succeeded)
    ensures status.IsTerminal() && stopCause == StopCauseOf(status)
    ensures Counts(counters, multiset(nodes))
  {
    hide Tallied;
    counters := Counters(|nodes|, 0, 0, 0, 0, 0);
    status, stopCause := RunSucceeded, "finished";
    NothingTallied(counters);
    assert nodes[..0] == [];
    for i := 0 to |nodes|
      invariant status == Verdict(false, multiset(nodes[..i]), true)
      invariant stopCause == StopCauseOf(status)
      invariant Tallied(counters, multiset(nodes[..i])) && counters.totalNodes == |nodes|
    {
      assert nodes[..i + 1] == nodes[..i] + [nodes[i]];
      status, stopCause, counters := Tally(multiset(nodes[..i]), nodes[i], status, stopCause, counters);
    }
    assert nodes[..|nodes|] == nodes;
    if runCanceled {
      status, stopCause := RunCanceled, "canceled";
    }
    if !succeeded && status == RunSucceeded {
      status, stopCause := RunFailed, "failed";
    }
  }

  lemma NothingTallied(c: Counters)
    requires c == Counters(c.totalNodes, 0, 0, 0, 0, 0)
    ensures Tallied(c, multiset{})
  {
  }

  /** The switch of that loop, for one node after the nodes `seen`. */
  method Tally(ghost seen: multiset<NodeStatus>, node: NodeStatus, s: RunStatus, cause: string, c: Counters)
    returns (status: RunStatus, stopCause: string, counters: Counters)
    requires s == Verdict(false, seen, true) && cause == StopCauseOf(s) && Tallied(c, seen)
    ensures status == Verdict(false, seen + multiset{node}, true) && stopCause == StopCauseOf(status)
    ensures Tallied(counters, seen + multiset{node}) && counters.totalNodes == c.totalNodes
  {
    status, stopCause, counters := s, cause, c;
    match node {
      case Succeeded => counters := counters.(succeededNodes := counters.succeededNodes + 1);
      case Failed =>
        counters := counters.(failedNodes := counters.failedNodes + 1);
        status, stopCause := RunFailed, "failed";
      case Canceled =>
        counters := counters.(canceledNodes := counters.canceledNodes + 1);
        if status != RunFailed {
          status, stopCause := RunCanceled, "canceled";
        }
      case Skipped => counters := counters.(skippedNodes := counters.skippedNodes + 1);
      case Running => counters := counters.(runningNodes := counters.runningNodes + 1);
      case Starting => counters := counters.(runningNodes := counters.runningNodes + 1);
      case Releasing => counters := counters.(runningNodes := counters.runningNodes + 1);
      case Ready => counters := counters.(runningNodes := counters.runningNodes + 1);
      case _ =>
    }
  }

  /** The run record while finalizeRun writes to it. */
  class RunRow {
    var run: RunRecord
    var counters: Counters

    constructor (run: RunRecord)
      ensures this.run == run
    {
      this.run := run;
      this.counters := Counters(0, 0, 0, 0, 0, 0);
    }

    /** finalizeRun with the answers of its two handoff calls and of its registry writes. Each
      * failed call turns success, and nothing else, into failure; an error says that the verdict
      * was not written, or that a success was written which a handoff call then belied. */
    method FinalizeRun(nodes: seq<NodeStatus>, succeeded: bool, finalizeOk: bool, gcOk: bool,
                       writeFails: bool, finalizeWriteFails: bool, gcWriteFails: bool)
      returns (ok: bool)
      modifies this
      ensures var v := Verdict(old(run.status) == RunCanceled, multiset(nodes), succeeded);
              && (ok <==> !writeFails && !(v == RunSucceeded && ((!finalizeOk && finalizeWriteFails)
                                                              || (finalizeOk && !gcOk && gcWriteFails))))
              && (writeFails ==> run == old(run) && counters == old(counters))
              && (!writeFails ==> run.status == if ok && !(finalizeOk && gcOk) && v == RunSucceeded then RunFailed else v)
      ensures ok ==> run.status == Verdict(old(run.status) == RunCanceled, multiset(nodes), succeeded && finalizeOk && gcOk)
      ensures !writeFails ==>
                && run.stopCause == StopCauseOf(run.status)
                && run.finished && run.runID == old(run.runID) && run.acceptedAt == old(run.acceptedAt)
                && Counts(counters, multiset(nodes))
    {
      hide Tallied;
      var status, stopCause, c := FoldNodes(run.status == RunCanceled, nodes, succeeded);
      if writeFails {
        return false;
      }
      run, counters := run.(status := status, stopCause := stopCause, finished := true), c;
      if !finalizeOk && status == RunSucceeded {
        if finalizeWriteFails {
          return false;
        }
        status, stopCause := RunFailed, "failed";
        run := run.(status := status, stopCause := stopCause);
      }
      if !gcOk && status == RunSucceeded {
        if gcWriteFails {
          return false;
        }
        status, stopCause := RunFailed, "failed";
        run := run.(status := status, stopCause := stopCause);
      }
      return true;
    }
  }

  /** No node is lost in the counters: those they leave out are still waiting for inputs. */
  lemma {:induction false} CountersPartitionTheNodes(c: Counters, nodes: seq<NodeStatus>)
    requires Counts(c, multiset(nodes))
    ensures c.totalNodes == c.succeededNodes + c.failedNodes + c.canceledNodes + c.skippedNodes + c.runningNodes
                            + multiset(nodes)[Pending] + multiset(nodes)[BuildingBindings] + multiset(nodes)[ResolvingInputs]
  {
    EveryStatusIsCounted(nodes);
  }

  lemma {:induction false} EveryStatusIsCounted(nodes: seq<NodeStatus>)
    ensures var m := multiset(nodes);
            |nodes| == m[Pending] + m[Ready] + m[BuildingBindings] + m[ResolvingInputs] + m[Releasing] + m[Starting]
                       + m[Running] + m[Succeeded] + m[Failed] + m[Canceled] + m[Skipped]
  {
    if nodes != [] {
      var last := |nodes| - 1;
      assert nodes == nodes[..last] + [nodes[last]];
      EveryStatusIsCounted(nodes[..last]);
      match nodes[last] {
        case Pending => case Ready => case BuildingBindings => case ResolvingInputs =>
        case Releasing => case Starting => case Running => case Succeeded =>
        case Failed => case Canceled => case Skipped =>
      }
    }
  }
}
