/** Two registries, one meaning: a whole schedule of operations replayed on both. */
module RegistryEquivalence {
  import opened Spec
  import S = Store
  import M = MemoryRegistry
  import Q = SqliteRegistry
  import T = SqliteTables

  datatype Op =
    | CreateRun(record: RunRecord, nodes: seq<NodeRecord>)
    | UpdateRun(runID: string, updateRun: RunRecord -> Option<RunRecord>)
    | UpdateNode(runID: string, nodeID: string, updateNode: NodeRecord -> Option<NodeRecord>)
    | UpsertAttempt(attempt: AttemptRecord)
    | Allocate(runID: string, nodeID: string)
    | OpenSemanticAttempt(runID: string, nodeID: string, attemptID: string)
    | MutateAttempt(runID: string, nodeID: string, attemptID: string, mutation: S.Mutation)
    | PersistBackendHandle(runID: string, nodeID: string, attemptID: string, handleJSON: string)
    | AppendEvent(event: S.EventRecord)

  /** Distinct node ids of the run being created; updates that keep a node's ids. */
  ghost predicate WellFormed(op: Op) {
    match op
    case CreateRun(record, nodes) => Q.Matching(record, nodes) && Q.DistinctIDs(nodes)
    case UpdateNode(_, _, update) => forall n :: update(n).Some? ==> T.NodeKeyOf(update(n).value) == T.NodeKeyOf(n)
    case _ => true
  }

  ghost function Meaning(st: S.Store, op: Op): S.Result<S.Store> {
    match op
    case CreateRun(record, nodes) => S.CreateRun(st, record, nodes)
    case UpdateRun(r, update) => S.UpdateRun(st, r, update)
    case UpdateNode(r, n, update) => S.UpdateNode(st, r, n, update)
    case UpsertAttempt(a) => S.UpsertAttempt(st, a)
    case Allocate(r, n) => S.Allocate(st, r, n)
    case OpenSemanticAttempt(r, n, a) => S.OpenSemanticAttempt(st, r, n, a)
    case MutateAttempt(r, n, a, m) => S.MutateAttempt(st, r, n, a, m)
    case PersistBackendHandle(r, n, a, h) => S.PersistBackendHandle(st, r, n, a, h)
    case AppendEvent(e) => S.AppendEvent(st, e)
  }

  /** The store after the operations marked done, skipping the others. */
  ghost function After(ops: seq<Op>, done: seq<bool>): S.Store
    requires |ops| == |done|
  {
    if ops == [] then S.Store(map[], map[], map[])
    else
      var n := |ops| - 1;
      var st := After(ops[..n], done[..n]);
      match Meaning(st, ops[n])
      case Ok(st') => if done[n] then st' else st
      case Err(_) => st
  }

  function ErrorOf<T>(r: S.Result<T>): Option<S.Error> {
    if r.Ok? then None else Some(r.error)
  }

  /** The error SQLite reports where memory reports `e`: a mutation does not look for the node first. */
  function SqliteError(op: Op, e: Option<S.Error>): Option<S.Error> {
    if e.Some? && (op.MutateAttempt? || op.PersistBackendHandle?) then Some(S.AttemptNotFound) else e
  }

  /** A call on MemoryRegistry. */
  method OnMemory(mem: M.Registry, op: Op) returns (err: Option<S.Error>)
    requires mem.Valid()
    modifies mem
    ensures mem.Valid()
    ensures err == ErrorOf(Meaning(old(mem.View()), op))
    ensures mem.View() == if err.None? then Meaning(old(mem.View()), op).value else old(mem.View())
  {
    hide M.Registry.View, M.Registry.Valid;
    match op {
    case CreateRun(record, nodes) => err := mem.CreateRun(record, nodes);
    case UpdateRun(r, update) => err := mem.UpdateRun(r, update);
    case UpdateNode(r, n, update) => err := mem.UpdateNode(r, n, update);
    case UpsertAttempt(a) => err := mem.UpsertAttempt(a);
    case Allocate(r, n) =>
      var got := mem.AllocateCurrentAttempt(r, n);
      err := ErrorOf(got);
    case OpenSemanticAttempt(r, n, a) => err := mem.OpenSemanticAttempt(r, n, a);
    case MutateAttempt(r, n, a, m) => err := mem.MutateAttempt(r, n, a, m);
    case PersistBackendHandle(r, n, a, h) => err := mem.PersistBackendHandle(r, n, a, h);
    case AppendEvent(e) => err := mem.AppendEvent(e);
    }
  }

  /** A call on SQLiteRegistry in which the statement named by `fault` fails. */
  method OnSqlite(sql: Q.Registry, op: Op, fault: Option<nat>) returns (err: Option<S.Error>)
    requires sql.Valid() && WellFormed(op)
    modifies sql
    ensures sql.Valid()
    ensures err.None? ==> Meaning(old(sql.View()), op) == S.Ok(sql.View())
    ensures err.Some? ==> sql.View() == old(sql.View())
    ensures fault.None? ==> err == SqliteError(op, ErrorOf(Meaning(old(sql.View()), op)))
  {
    match op {
    case CreateRun(record, nodes) =>
      T.ViewAt(sql.db, record.runID, "");
      err := sql.CreateRun(record, nodes, fault);
    case UpdateRun(r, update) => err := sql.UpdateRun(r, update, fault);
    case UpdateNode(r, n, update) =>
      T.ViewAt(sql.db, r, n);
      err := sql.UpdateNode(r, n, update, fault);
    case UpsertAttempt(a) => err := sql.UpsertAttempt(a, fault);
    case Allocate(r, n) =>
      var got := sql.AllocateCurrentAttempt(r, n, fault);
      err := ErrorOf(got);
    case OpenSemanticAttempt(r, n, a) => err := sql.OpenSemanticAttempt(r, n, a, fault);
    case MutateAttempt(r, n, a, m) => err := sql.MutateAttempt(r, n, a, m, fault);
    case PersistBackendHandle(r, n, a, h) => err := sql.PersistBackendHandle(r, n, a, h, fault);
    case AppendEvent(e) => err := sql.AppendEvent(e, fault);
    }
  }

  /** Whatever statements fail, the tables hold exactly what memory holds after the operations
    * SQLite acknowledged; an operation no fault touched is acknowledged by both or refused by
    * both, with the same error but for what SqliteError says. */
  method Replay(ops: seq<Op>, faults: seq<Option<nat>>)
    returns (mem: M.Registry, sql: Q.Registry, acked: seq<bool>, errors: seq<Option<S.Error>>)
    requires |faults| == |ops| && forall i | 0 <= i < |ops| :: WellFormed(ops[i])
    ensures mem.Valid() && sql.Valid() && |acked| == |errors| == |ops|
    ensures mem.View() == sql.View() == After(ops, acked)
    ensures forall i | 0 <= i < |ops| :: Answered(ops, faults, acked, errors, i)
  {
    hide Meaning, WellFormed, SqliteError, Answered;
    mem := new M.Registry();
    sql := new Q.Registry();
    acked, errors := [], [];
    for k := 0 to |ops|
      invariant mem.Valid() && sql.Valid() && |acked| == |errors| == k
      invariant fresh(mem) && fresh(sql)
      invariant mem.View() == sql.View() == After(ops[..k], acked)
      invariant forall i | 0 <= i < k :: Answered(ops, faults, acked, errors, i)
    {
      ghost var before, earlier := acked, errors;
      ghost var st := sql.View();
      var err := OnSqlite(sql, ops[k], faults[k]);
      if err.None? || faults[k].None? {
        var same := OnMemory(mem, ops[k]);
        ErrorsAlign(ops[k], same);
      }
      acked, errors := acked + [err.None?], errors + [err];
      assert acked[..k] == before && ops[..k + 1][..k] == ops[..k];
      forall i | 0 <= i < k
        ensures Answered(ops, faults, acked, errors, i)
      {
        StillAnswered(ops, faults, before, earlier, err, i);
      }
      JustAnswered(ops, faults, acked, errors, k, st);
    }
    assert ops[..|ops|] == ops;
  }

  /** How SQLite answered the i-th operation, given the state memory would be in. */
  ghost predicate Answered(ops: seq<Op>, faults: seq<Option<nat>>, acked: seq<bool>, errors: seq<Option<S.Error>>, i: nat)
    requires i < |ops| && i < |acked| && i < |errors| && |faults| == |ops|
  {
    var outcome := Meaning(After(ops[..i], acked[..i]), ops[i]);
    && acked[i] == errors[i].None?
    && (acked[i] ==> outcome.Ok?)
    && (faults[i].None? ==> errors[i] == SqliteError(ops[i], ErrorOf(outcome)))
  }

  lemma ErrorsAlign(op: Op, e: Option<S.Error>)
    ensures SqliteError(op, e).None? <==> e.None?
  {
  }

  lemma StillAnswered(ops: seq<Op>, faults: seq<Option<nat>>, acked: seq<bool>, errors: seq<Option<S.Error>>,
                      err: Option<S.Error>, i: nat)
    requires i < |acked| && |acked| == |errors| < |ops| && |faults| == |ops|
    requires Answered(ops, faults, acked, errors, i)
    ensures Answered(ops, faults, acked + [err.None?], errors + [err], i)
  {
    hide Meaning, SqliteError;
    assert (acked + [err.None?])[..i] == acked[..i];
  }

  lemma JustAnswered(ops: seq<Op>, faults: seq<Option<nat>>, acked: seq<bool>, errors: seq<Option<S.Error>>, k: nat,
                     st: S.Store)
    requires k < |ops| && |faults| == |ops| && |acked| == |errors| == k + 1 && acked[k] == errors[k].None?
    requires st == After(ops[..k], acked[..k])
    requires acked[k] ==> Meaning(st, ops[k]).Ok?
    requires faults[k].None? ==> errors[k] == SqliteError(ops[k], ErrorOf(Meaning(st, ops[k])))
    ensures Answered(ops, faults, acked, errors, k)
  {
    hide Meaning, SqliteError;
  }
}
