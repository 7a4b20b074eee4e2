/** ValidateExecutableRunSpec of pkg/spec/validate.go.
  *
  * The search keeps the source's two sets, `seen` and `stack`; two ghost sequences explain
  * them: `trail` is the path the stack stands for, `finished` lists the nodes already left
  * in an order in which every edge points backwards.
  */
module Validate {
  import opened Spec
  import opened Text
  import P = Placement

  datatype BindingSpec = BindingSpec(bindingName: string, producerNodeID: string, producerOutputName: string)
  datatype NodeSpec = NodeSpec(
    nodeID: string,
    image: string,
    maxAttempts: int,
    timeoutSeconds: int,
    placement: Option<P.Hints>,
    kueueLabels: Option<set<string>>,
    bindings: seq<BindingSpec>)
  datatype RunSpec = RunSpec(runID: string, nodes: seq<NodeSpec>, edges: seq<seq<string>>)

  datatype Verdict = Accepted | Malformed | Cyclic

  // ---- what an acceptable specification is ----

  predicate BindingOk(b: BindingSpec) {
    b.bindingName != "" && b.producerNodeID != "" && b.producerOutputName != ""
  }

  predicate NodeOk(n: NodeSpec) {
    && n.nodeID != "" && n.image != "" && n.maxAttempts >= 0 && n.timeoutSeconds >= 0
    && P.ValidPlacement(n.placement)
    && (n.kueueLabels.Some? ==> forall k | k in n.kueueLabels.value :: HasPrefix(k, USER_LABEL_PREFIX))
    && forall i | 0 <= i < |n.bindings| :: BindingOk(n.bindings[i])
  }

  function NodeIDs(nodes: seq<NodeSpec>): set<string> {
    set i | 0 <= i < |nodes| :: nodes[i].nodeID
  }

  predicate NodesOk(nodes: seq<NodeSpec>) {
    && (forall i | 0 <= i < |nodes| :: NodeOk(nodes[i]))
    && forall i, j | 0 <= i < j < |nodes| :: nodes[i].nodeID != nodes[j].nodeID
  }

  predicate EdgeOk(e: seq<string>, ids: set<string>) {
    |e| == 2 && e[0] != e[1] && e[0] in ids && e[1] in ids
  }

  predicate EdgesOk(edges: seq<seq<string>>, ids: set<string>) {
    forall i | 0 <= i < |edges| :: EdgeOk(edges[i], ids)
  }

  predicate WellFormed(spec: RunSpec) {
    && spec.runID != "" && spec.nodes != []
    && NodesOk(spec.nodes) && EdgesOk(spec.edges, NodeIDs(spec.nodes))
  }

  /** What a caller may rely on for the parts of an accepted specification. */
  lemma AcceptedPartsAreComplete(spec: RunSpec, n: NodeSpec, m: NodeSpec, b: BindingSpec, k: string, e: seq<string>)
    requires WellFormed(spec)
    ensures n in spec.nodes ==>
              && n.nodeID != "" && n.image != "" && n.maxAttempts >= 0 && n.timeoutSeconds >= 0
              && (b in n.bindings ==> b.bindingName != "" && b.producerNodeID != "" && b.producerOutputName != "")
              && (n.kueueLabels.Some? && k in n.kueueLabels.value ==> "user.jumi.io/" <= k)
    ensures n in spec.nodes && m in spec.nodes && n.nodeID == m.nodeID ==> n == m
    ensures e in spec.edges ==>
              |e| == 2 && e[0] != e[1] && exists u, v :: u in spec.nodes && v in spec.nodes && e == [u.nodeID, v.nodeID]
  {
    if n in spec.nodes && m in spec.nodes && n.nodeID == m.nodeID {
      var i :| 0 <= i < |spec.nodes| && spec.nodes[i] == n;
      var j :| 0 <= j < |spec.nodes| && spec.nodes[j] == m;
      assert i == j;
    }
    if e in spec.edges {
      assert EdgeOk(e, NodeIDs(spec.nodes));
      var i :| 0 <= i < |spec.nodes| && spec.nodes[i].nodeID == e[0];
      var j :| 0 <= j < |spec.nodes| && spec.nodes[j].nodeID == e[1];
      assert e == [spec.nodes[i].nodeID, spec.nodes[j].nodeID];
    }
  }

  ghost predicate IsPath(edges: seq<seq<string>>, p: seq<string>) {
    forall i | 0 < i < |p| :: [p[i - 1], p[i]] in edges
  }

  /** v is reached from u along at least one edge. */
  ghost predicate Reaches(edges: seq<seq<string>>, u: string, v: string) {
    exists p :: IsPath(edges, p) && |p| >= 2 && p[0] == u && p[|p| - 1] == v
  }

  ghost predicate Acyclic(edges: seq<seq<string>>) {
    forall u :: !Reaches(edges, u, u)
  }

  // ---- adjacency ----

  type Adjacency = map<string, seq<string>>

  function Succ(adj: Adjacency, u: string): seq<string> {
    if u in adj then adj[u] else []
  }

  ghost predicate Represents(adj: Adjacency, edges: seq<seq<string>>) {
    forall u, v :: v in Succ(adj, u) <==> [u, v] in edges
  }

  // ---- why the search is right ----

  /** Every edge leaving a listed node leads to one listed before it. */
  ghost predicate Backwards(edges: seq<seq<string>>, order: seq<string>) {
    forall i, v | 0 <= i < |order| && [order[i], v] in edges :: v in order[..i]
  }

  ghost function Rank(order: seq<string>, u: string): (r: nat)
    ensures r <= |order|
    ensures u in order ==> r < |order| && order[r] == u && forall k | 0 <= k < r :: order[k] != u
  {
    if order == [] then 0
    else if u in order[..|order| - 1] then
      Rank(order[..|order| - 1], u)
    else |order| - 1
  }

  lemma RankFalls(edges: seq<seq<string>>, order: seq<string>, u: string, v: string)
    requires Backwards(edges, order) && u in order && [u, v] in edges
    ensures v in order && Rank(order, v) < Rank(order, u)
  {
    var i := Rank(order, u);
    assert v in order[..i];
    var j :| 0 <= j < i && order[..i][j] == v;
    assert order[j] == v;
  }

  lemma {:induction false} RankFallsAlong(edges: seq<seq<string>>, order: seq<string>, p: seq<string>)
    requires Backwards(edges, order) && IsPath(edges, p) && |p| >= 2 && p[0] in order
    ensures p[|p| - 1] in order && Rank(order, p[|p| - 1]) < Rank(order, p[0])
  {
    var q := p[..|p| - 1];
    if |q| >= 2 {
      RankFallsAlong(edges, order, q);
    }
    assert [p[|p| - 2], p[|p| - 1]] in edges;
    RankFalls(edges, order, q[|q| - 1], p[|p| - 1]);
  }

  lemma BackwardsIsAcyclic(edges: seq<seq<string>>, order: seq<string>)
    requires Backwards(edges, order)
    requires forall u, v :: [u, v] in edges ==> u in order
    ensures Acyclic(edges)
  {
    forall u
      ensures !Reaches(edges, u, u)
    {
      if Reaches(edges, u, u) {
        var p :| IsPath(edges, p) && |p| >= 2 && p[0] == u && p[|p| - 1] == u;
        assert [p[0], p[1]] in edges;
        RankFallsAlong(edges, order, p);
      }
    }
  }

  /** Meeting a node of the trail again closes a cycle. */
  lemma TrailCloses(edges: seq<seq<string>>, trail: seq<string>, node: string)
    requires IsPath(edges, trail) && node in trail && [trail[|trail| - 1], node] in edges
    ensures Reaches(edges, node, node)
  {
    var i :| 0 <= i < |trail| && trail[i] == node;
    var p := trail[i..];
    PathTail(edges, trail, i);
    PathExtends(edges, p, node);
    assert (p + [node])[0] == node && (p + [node])[|p|] == node;
  }

  lemma PathTail(edges: seq<seq<string>>, p: seq<string>, i: nat)
    requires IsPath(edges, p) && i < |p|
    ensures IsPath(edges, p[i..])
  {
    forall k | 0 < k < |p[i..]|
      ensures [p[i..][k - 1], p[i..][k]] in edges
    {
      assert p[i..][k - 1] == p[i + k - 1] && p[i..][k] == p[i + k];
    }
  }

  lemma PathExtends(edges: seq<seq<string>>, p: seq<string>, node: string)
    requires IsPath(edges, p) && p != [] && [p[|p| - 1], node] in edges
    ensures IsPath(edges, p + [node])
  {
    var q := p + [node];
    forall k | 0 < k < |q|
      ensures [q[k - 1], q[k]] in edges
    {
      assert q[k - 1] == p[k - 1];
      assert k < |p| ==> q[k] == p[k];
    }
  }

  ghost predicate Same(stack: set<string>, trail: seq<string>) {
    forall u :: u in stack <==> u in trail
  }

  /** What the search's variables say about each other. */
  ghost predicate Sound(edges: seq<seq<string>>, seen: set<string>, stack: set<string>,
                        trail: seq<string>, finished: seq<string>)
  {
    && Same(stack, trail)
    && (forall u :: u in seen <==> u in stack || u in finished)
    && (forall u | u in finished :: u !in stack)
    && IsPath(edges, trail)
    && Backwards(edges, finished)
  }

  ghost predicate Continues(edges: seq<seq<string>>, trail: seq<string>, node: string) {
    trail != [] ==> [trail[|trail| - 1], node] in edges
  }

  lemma Enter(edges: seq<seq<string>>, seen: set<string>, stack: set<string>,
              trail: seq<string>, finished: seq<string>, node: string)
    requires Sound(edges, seen, stack, trail, finished) && node !in seen
    requires Continues(edges, trail, node)
    ensures Sound(edges, seen + {node}, stack + {node}, trail + [node], finished)
    ensures node !in stack && Same(stack, trail)
  {
  }

  lemma Closes(edges: seq<seq<string>>, seen: set<string>, stack: set<string>,
               trail: seq<string>, finished: seq<string>, node: string)
    requires Sound(edges, seen, stack, trail, finished) && node in stack
    requires Continues(edges, trail, node)
    ensures !Acyclic(edges)
  {
    TrailCloses(edges, trail, node);
  }

  lemma Leave(adj: Adjacency, edges: seq<seq<string>>, seen: set<string>, stack: set<string>,
              trail: seq<string>, finished: seq<string>, node: string)
    requires Sound(edges, seen, stack + {node}, trail + [node], finished)
    requires node !in stack && Same(stack, trail)
    requires Represents(adj, edges)
    requires forall v | v in Succ(adj, node) :: v in seen && v !in stack && v != node
    ensures Sound(edges, seen, stack, trail, finished + [node])
  {
    var order := finished + [node];
    forall i, v | 0 <= i < |order| && [order[i], v] in edges
      ensures v in order[..i]
    {
      if i < |finished| {
        assert order[..i] == finished[..i] && [finished[i], v] in edges;
      } else {
        assert order[..i] == finished;
        assert v in Succ(adj, node);
      }
    }
    forall k | 0 < k < |trail|
      ensures [trail[k - 1], trail[k]] in edges
    {
      assert (trail + [node])[k] == trail[k] && (trail + [node])[k - 1] == trail[k - 1];
    }
  }

  lemma Entered(ids: set<string>, seen: set<string>, node: string)
    requires node in ids && node !in seen
    ensures |ids - (seen + {node})| < |ids - seen|
  {
    assert ids - seen == (ids - (seen + {node})) + {node};
  }

  lemma {:induction false} Subset(a: set<string>, b: set<string>)
    requires a <= b
    ensures |a| <= |b|
  {
    if a != {} {
      var x :| x in a;
      Subset(a - {x}, b - {x});
    }
  }

  lemma SuccIsEdge(ids: set<string>, adj: Adjacency, edges: seq<seq<string>>, u: string, v: string)
    requires Represents(adj, edges) && EdgesOk(edges, ids) && v in Succ(adj, u)
    ensures [u, v] in edges && v in ids
  {
    var i :| 0 <= i < |edges| && edges[i] == [u, v];
    assert EdgeOk(edges[i], ids);
  }

  // ---- the search ----

  class Search {
    const ids: set<string>
    const adj: Adjacency
    ghost const edges: seq<seq<string>>
    var seen: set<string>
    var stack: set<string>
    ghost var trail: seq<string>
    ghost var finished: seq<string>

    constructor (ids: set<string>, adj: Adjacency, ghost edges: seq<seq<string>>)
      requires Represents(adj, edges) && EdgesOk(edges, ids)
      ensures Valid() && seen == {} && stack == {} && trail == []
      ensures this.ids == ids && this.adj == adj && this.edges == edges
    {
      this.ids, this.adj, this.edges := ids, adj, edges;
      seen, stack, trail, finished := {}, {}, [], [];
    }

    ghost predicate Valid()
      reads this
    {
      && Represents(adj, edges) && EdgesOk(edges, ids)
      && seen <= ids && Sound(edges, seen, stack, trail, finished)
    }

    /** The recursive `visit`. */
    method Visit(node: string) returns (ok: bool)
      requires Valid() && node in ids
      requires Continues(edges, trail, node)
      modifies this
      decreases |ids - seen|, 0
      ensures ok ==> Valid() && stack == old(stack) && trail == old(trail)
      ensures ok ==> old(seen) <= seen && node in seen && node !in stack
      ensures !ok ==> !Acyclic(edges)
    {
      hide Sound, EdgesOk, Represents, Acyclic, Succ, Continues, Same;
      if node in stack {
        Closes(edges, seen, stack, trail, finished, node);
        return false;
      }
      if node in seen {
        return true;
      }
      Push(node);
      ok := VisitSuccessors(node);
      if ok {
        Pop(node, old(stack), old(trail));
      }
    }

    method Push(node: string)
      requires Valid() && node in ids && node !in seen && Continues(edges, trail, node)
      modifies this
      ensures Valid() && node !in old(stack) && Same(old(stack), old(trail)) && |ids - seen| < old(|ids - seen|)
      ensures seen == old(seen) + {node} && stack == old(stack) + {node} && trail == old(trail) + [node]
    {
      hide Sound, EdgesOk, Represents, Continues, Same;
      Enter(edges, seen, stack, trail, finished, node);
      Entered(ids, seen, node);
      seen := seen + {node};
      stack := stack + {node};
      trail := trail + [node];
    }

    method Pop(node: string, ghost outer: set<string>, ghost path: seq<string>)
      requires Valid() && stack == outer + {node} && trail == path + [node]
      requires node !in outer && Same(outer, path)
      requires forall v | v in Succ(adj, node) :: v in seen && v !in stack
      modifies this`stack, this`trail, this`finished
      ensures Valid() && stack == outer && trail == path
    {
      Leave(adj, edges, seen, outer, path, finished, node);
      hide Sound, EdgesOk, Represents, Same, Succ;
      stack := stack - {node};
      trail := path;
      finished := finished + [node];
      assert stack == outer;
    }

    /** The loop inside `visit`, once `node` is on the stack. */
    method VisitSuccessors(node: string) returns (ok: bool)
      requires Valid() && trail != [] && trail[|trail| - 1] == node
      modifies this
      decreases |ids - seen|, 1
      ensures ok ==> Valid() && stack == old(stack) && trail == old(trail) && old(seen) <= seen
      ensures ok ==> forall v | v in Succ(adj, node) :: v in seen && v !in stack
      ensures !ok ==> !Acyclic(edges)
    {
      hide Sound, EdgesOk, Represents, Acyclic, Succ;
      var next := Succ(adj, node);
      for i := 0 to |next|
        invariant Valid() && stack == old(stack) && trail == old(trail) && old(seen) <= seen
        invariant forall k | 0 <= k < i :: next[k] in seen && next[k] !in stack
      {
        Subset(ids - seen, ids - old(seen));
        SuccIsEdge(ids, adj, edges, node, next[i]);
        ok := Visit(next[i]);
        if !ok {
          return false;
        }
      }
      return true;
    }
  }

  /** The checks on one node; `ids` are the ids met before it. */
  method CheckNode(node: NodeSpec, ids: set<string>) returns (ok: bool)
    ensures ok <==> NodeOk(node) && node.nodeID !in ids
  {
    if node.nodeID == "" || node.nodeID in ids || node.image == "" {
      return false;
    }
    if node.maxAttempts < 0 || node.timeoutSeconds < 0 {
      return false;
    }
    if !P.ValidPlacement(node.placement) {
      return false;
    }
    if node.kueueLabels.Some? {
      var rest := node.kueueLabels.value;
      while rest != {}
        invariant rest <= node.kueueLabels.value
        invariant forall k | k in node.kueueLabels.value && k !in rest :: HasPrefix(k, USER_LABEL_PREFIX)
      {
        var k :| k in rest;
        if !HasPrefix(k, USER_LABEL_PREFIX) {
          return false;
        }
        rest := rest - {k};
      }
    }
    for i := 0 to |node.bindings|
      invariant forall k | 0 <= k < i :: BindingOk(node.bindings[k])
    {
      var b := node.bindings[i];
      if b.bindingName == "" || b.producerNodeID == "" || b.producerOutputName == "" {
        return false;
      }
    }
    return true;
  }

  method CheckNodes(nodes: seq<NodeSpec>) returns (ok: bool, ids: set<string>)
    ensures ok <==> NodesOk(nodes)
    ensures ok ==> ids == NodeIDs(nodes)
  {
    ids := {};
    for i := 0 to |nodes|
      invariant NodesOk(nodes[..i]) && ids == NodeIDs(nodes[..i])
    {
      ok := CheckNode(nodes[i], ids);
      NextNode(nodes, i);
      if !ok {
        return;
      }
      ids := ids + {nodes[i].nodeID};
    }
    assert nodes[..|nodes|] == nodes;
    ok := true;
  }

  lemma NextNode(nodes: seq<NodeSpec>, i: nat)
    requires i < |nodes| && NodesOk(nodes[..i])
    ensures NodesOk(nodes[..i + 1]) <==> NodeOk(nodes[i]) && nodes[i].nodeID !in NodeIDs(nodes[..i])
    ensures NodesOk(nodes) ==> NodesOk(nodes[..i + 1])
    ensures NodeIDs(nodes[..i + 1]) == NodeIDs(nodes[..i]) + {nodes[i].nodeID}
  {
    var before, upTo := nodes[..i], nodes[..i + 1];
    hide NodeOk;
    assert upTo == before + [nodes[i]];
    assert upTo[i] == nodes[i];
    if nodes[i].nodeID in NodeIDs(before) {
      var j :| 0 <= j < i && before[j].nodeID == nodes[i].nodeID;
      assert upTo[j].nodeID == upTo[i].nodeID;
    }
  }

  method CheckEdges(edges: seq<seq<string>>, ids: set<string>) returns (ok: bool, adj: Adjacency)
    ensures ok <==> EdgesOk(edges, ids)
    ensures ok ==> Represents(adj, edges)
  {
    adj := map[];
    for i := 0 to |edges|
      invariant EdgesOk(edges[..i], ids) && Represents(adj, edges[..i])
    {
      var edge := edges[i];
      if !EdgeOk(edge, ids) {
        ok := false;
        return;
      }
      NextEdge(adj, edges, i);
      adj := adj[edge[0] := Succ(adj, edge[0]) + [edge[1]]];
    }
    assert edges[..|edges|] == edges;
    ok := true;
  }

  lemma NextEdge(adj: Adjacency, edges: seq<seq<string>>, i: nat)
    requires i < |edges| && |edges[i]| == 2 && Represents(adj, edges[..i])
    ensures Represents(adj[edges[i][0] := Succ(adj, edges[i][0]) + [edges[i][1]]], edges[..i + 1])
    ensures forall ids :: EdgesOk(edges[..i], ids) && EdgeOk(edges[i], ids) ==> EdgesOk(edges[..i + 1], ids)
  {
    var from, to := edges[i][0], edges[i][1];
    var adj' := adj[from := Succ(adj, from) + [to]];
    assert edges[..i + 1] == edges[..i] + [edges[i]] && edges[i] == [from, to];
    forall u, v
      ensures v in Succ(adj', u) <==> [u, v] in edges[..i + 1]
    {
      assert [u, v] == [from, to] <==> u == from && v == to by {
        assert [u, v][0] == u && [u, v][1] == v && [from, to][0] == from && [from, to][1] == to;
      }
    }
  }

  /** A finished search over every node has listed them all, each after its successors. */
  lemma Exhausted(edges: seq<seq<string>>, ids: set<string>, seen: set<string>, finished: seq<string>)
    requires Sound(edges, seen, {}, [], finished) && EdgesOk(edges, ids) && ids <= seen
    ensures Acyclic(edges)
  {
    forall u, v | [u, v] in edges
      ensures u in finished
    {
      var i :| 0 <= i < |edges| && edges[i] == [u, v];
      assert EdgeOk(edges[i], ids);
    }
    BackwardsIsAcyclic(edges, finished);
  }

  /** ValidateExecutableRunSpec. The nodes are visited in whatever order the map yields them;
    * the verdict is determined by the specification alone. */
  method ValidateExecutableRunSpec(spec: RunSpec) returns (v: Verdict)
    ensures v == Accepted <==> WellFormed(spec) && Acyclic(spec.edges)
    ensures v == Cyclic <==> WellFormed(spec) && !Acyclic(spec.edges)
  {
    hide NodesOk, EdgesOk, Represents, Acyclic, Sound;
    if spec.runID == "" || |spec.nodes| == 0 {
      return Malformed;
    }
    var ok, ids := CheckNodes(spec.nodes);
    if !ok {
      return Malformed;
    }
    var adj;
    ok, adj := CheckEdges(spec.edges, ids);
    if !ok {
      return Malformed;
    }
    var search := new Search(ids, adj, spec.edges);
    var rest := ids;
    while rest != {}
      invariant fresh(search) && search.Valid() && search.stack == {} && search.trail == []
      invariant search.ids == ids && search.edges == spec.edges
      invariant rest <= ids <= rest + search.seen
    {
      var node :| node in rest;
      ok := search.Visit(node);
      if !ok {
        return Cyclic;
      }
      rest := rest - {node};
    }
    Exhausted(spec.edges, ids, search.seen, search.finished);
    return Accepted;
  }
}
