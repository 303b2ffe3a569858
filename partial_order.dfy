/** Conversion of a partial-order plan into a dependency graph
    (`_partial_order_plan_to_dependency_graph` in up_esb/components/graph.py).
    Every step mentioned by the plan, "start" and "end" get an id from an
    enumeration of a Python set, whose order is not modelled: the graph is
    specified for every numbering the enumeration could produce. */
module PartialOrder {
  import opened Wrappers
  import opened Plans
  import opened DiGraph
  import opened DependencyGraph

  /** The members of the set of plan nodes: the two sentinel strings and the
      action instances. */
  datatype PlanNode = StartNode | EndNode | StepNode(step: ActionInstance)

  /** The adjacency list of a partial-order plan: each step with its listed
      successors, in the order of the underlying dict. */
  type Adjacency = seq<(ActionInstance, seq<ActionInstance>)>

  /** The steps of `s`, as plan nodes. */
  function StepsOf(s: seq<ActionInstance>): (ps: set<PlanNode>)
    ensures forall p :: p in ps <==> p.StepNode? && p.step in s
  {
    set a | a in s :: StepNode(a)
  }

  /** The set of plan nodes once the first loop has seen `adj`: "start",
      "end", every key and every listed successor. */
  function PlanNodes(adj: Adjacency): (ps: set<PlanNode>)
    ensures StartNode in ps && EndNode in ps
  {
    if adj == [] then {StartNode, EndNode}
    else PlanNodes(adj[..|adj| - 1]) + {StepNode(adj[|adj| - 1].0)} + StepsOf(adj[|adj| - 1].1)
  }

  /** The enumeration of the node set: one distinct id in `0 .. |nodes| - 1`
      for every node of the plan. */
  ghost predicate Numbering(adj: Adjacency, m: map<PlanNode, int>)
  {
    m.Keys == PlanNodes(adj) && Numbered(m, |m|)
  }

  /** The ids of `m` are distinct and lie in `0 .. n - 1`. */
  ghost predicate Numbered<T>(m: map<T, int>, n: int)
  {
    && (forall p :: p in m ==> 0 <= m[p] < n)
    && (forall p, q :: p in m && q in m && p != q ==> m[p] != m[q])
  }

  predicate KeysKnown(adj: Adjacency)
  {
    forall i :: 0 <= i < |adj| ==> Known(adj[i].0)
  }

  /** Every key and every listed successor of entry `i` is a plan node. */
  lemma {:induction false} PlanNodesHold(adj: Adjacency, i: nat)
    requires i < |adj|
    ensures StepNode(adj[i].0) in PlanNodes(adj)
    ensures StepsOf(adj[i].1) <= PlanNodes(adj)
  {
    if i < |adj| - 1 {
      PlanNodesHold(adj[..|adj| - 1], i);
    }
  }

  /** The plan nodes are exactly "start", "end", the keys and the listed
      successors. */
  lemma {:induction false} PlanNodesExactly(adj: Adjacency, a: ActionInstance)
    ensures StepNode(a) in PlanNodes(adj) <==> exists i :: 0 <= i < |adj| && (adj[i].0 == a || a in adj[i].1)
  {
    if adj != [] {
      var front := adj[..|adj| - 1];
      PlanNodesExactly(front, a);
      if exists i :: 0 <= i < |front| && (front[i].0 == a || a in front[i].1) {
        var i :| 0 <= i < |front| && (front[i].0 == a || a in front[i].1);
        assert adj[i] == front[i];
      }
      if exists i :: 0 <= i < |adj| && (adj[i].0 == a || a in adj[i].1) {
        var i :| 0 <= i < |adj| && (adj[i].0 == a || a in adj[i].1);
        if i < |front| {
          assert adj[i] == front[i];
        }
      }
    }
  }

  // ---------------------------------------------------------------------------
  // The node set and its numbering
  // ---------------------------------------------------------------------------

  /** The first loop: every key, every listed successor, "start" and "end". */
  method CollectPlanNodes(adj: Adjacency) returns (nodes: set<PlanNode>)
    ensures nodes == PlanNodes(adj)
  {
    nodes := {};
    var i := 0;
    while i < |adj|
      invariant 0 <= i <= |adj|
      invariant nodes + {StartNode, EndNode} == PlanNodes(adj[..i])
      invariant StartNode !in nodes && EndNode !in nodes
    {
      var (action, successors) := adj[i];
      nodes := nodes + {StepNode(action)};
      var j := 0;
      while j < |successors|
        invariant 0 <= j <= |successors|
        invariant nodes + {StartNode, EndNode} == PlanNodes(adj[..i]) + {StepNode(action)} + StepsOf(successors[..j])
        invariant StartNode !in nodes && EndNode !in nodes
      {
        assert StepsOf(successors[..j + 1]) == StepsOf(successors[..j]) + {StepNode(successors[j])} by {
          assert successors[..j + 1] == successors[..j] + [successors[j]];
        }
        nodes := nodes + {StepNode(successors[j])};
        j := j + 1;
      }
      assert successors[..j] == successors;
      assert adj[..i + 1][..i] == adj[..i];
      i := i + 1;
    }
    assert adj[..i] == adj;
    nodes := nodes + {StartNode, EndNode};
  }

  /** `for i, node in enumerate(nodes): node_map[node] = i`, in whatever
      order the set is iterated. */
  method NumberNodes<T>(nodes: set<T>) returns (m: map<T, int>)
    ensures m.Keys == nodes
    ensures Numbered(m, |m|)
  {
    m := map[];
    var rest := nodes;
    var i := 0;
    while rest != {}
      invariant m.Keys !! rest && m.Keys + rest == nodes && |m| == i
      invariant Numbered(m, i)
      decreases |rest|
    {
      var p := PickOne(rest);
      NumberedExtend(m, p, i);
      EnumerationStep(nodes, rest, m, i, p);
      m := m[p := i];
      rest := rest - {p};
      i := i + 1;
    }
  }

  lemma NumberedExtend<T>(m: map<T, int>, p: T, i: int)
    requires Numbered(m, i) && p !in m && 0 <= i
    ensures Numbered(m[p := i], i + 1)
  {
  }

  /** Moving `p` from the nodes still to number to the numbered ones. */
  lemma EnumerationStep<T>(nodes: set<T>, rest: set<T>, m: map<T, int>, i: int, p: T)
    requires m.Keys !! rest && m.Keys + rest == nodes && |m| == i && p in rest
    ensures m[p := i].Keys !! rest - {p} && m[p := i].Keys + (rest - {p}) == nodes && |m[p := i]| == i + 1
  {
    assert m[p := i].Keys == m.Keys + {p};
  }

  // ---------------------------------------------------------------------------
  // The graph, for a given numbering
  // ---------------------------------------------------------------------------

  /** What one round of the main loop works from: the id of the key, the
      record its node gets and the ids of its listed successors, in order. */
  datatype Row = Row(id: int, data: NodeData, succs: seq<int>)

  /** The row of key `i` under numbering `m`. */
  function RowOf(adj: Adjacency, m: map<PlanNode, int>, i: nat): (r: Row)
    requires Numbering(adj, m) && i < |adj| && Known(adj[i].0)
    ensures StepNode(adj[i].0) in m && r.id == m[StepNode(adj[i].0)]
    ensures r.data == StepData(adj[i].0, adj[i].0.rendered)
    ensures |r.succs| == |adj[i].1|
    ensures forall j :: 0 <= j < |adj[i].1| ==> StepNode(adj[i].1[j]) in m && r.succs[j] == m[StepNode(adj[i].1[j])]
  {
    PlanNodesHold(adj, i);
    Row(m[StepNode(adj[i].0)], StepData(adj[i].0, adj[i].0.rendered),
      seq(|adj[i].1|, j requires 0 <= j < |adj[i].1| =>
        assert StepNode(adj[i].1[j]) in StepsOf(adj[i].1);
        m[StepNode(adj[i].1[j])]))
  }

  /** The rows of the first `k` keys. */
  function Rows(adj: Adjacency, m: map<PlanNode, int>, k: nat): (rows: seq<Row>)
    requires Numbering(adj, m) && k <= |adj|
    requires forall i :: 0 <= i < k ==> Known(adj[i].0)
    ensures |rows| == k
    ensures forall i :: 0 <= i < k ==> rows[i] == RowOf(adj, m, i)
  {
    seq(k, i requires 0 <= i < k => RowOf(adj, m, i))
  }

  /** The nodes the key of row `r` is linked to: its listed successors, or
      "end" when none is listed. */
  function Targets(r: Row, endId: int): (ts: seq<int>)
    ensures ts != []
  {
    if r.succs == [] then [endId] else r.succs
  }

  /** One round of the main loop: the node of the key gets its record, then
      an edge to each of its targets. */
  function RowRound(g: DepGraph, r: Row, endId: int): DepGraph
  {
    Graph(AddAllMissing(AddMissing(g.nodes, r.id), Targets(r, endId)),
          g.attrs[r.id := r.data],
          g.edges + Fan(r.id, Targets(r, endId)))
  }

  /** The graph once "end" and the rows `rows` are in. */
  function RowsRun(rows: seq<Row>, endId: int): DepGraph
  {
    if rows == [] then AddNode(Empty(), endId, Sentinel("end"))
    else RowRound(RowsRun(rows[..|rows| - 1], endId), rows[|rows| - 1], endId)
  }

  /** The nodes of `ns` with in-degree 0 in `g`, in order. */
  function SourcesIn(g: DepGraph, ns: seq<int>): (r: seq<int>)
    ensures forall n :: n in r <==> n in ns && IsSource(g, n)
  {
    if ns == [] then []
    else SourcesIn(g, ns[..|ns| - 1]) + (if IsSource(g, ns[|ns| - 1]) then [ns[|ns| - 1]] else [])
  }

  /** The graph after "end" and the rows, with "start" added last and linked
      to every node that had no predecessor by then. */
  function RowsGraph(rows: seq<Row>, startId: int, endId: int): DepGraph
  {
    var g := RowsRun(rows, endId);
    var sources := SourcesIn(g, g.nodes);
    Graph(AddAllMissing(AddMissing(g.nodes, startId), sources),
          g.attrs[startId := Sentinel("start")],
          g.edges + Fan(startId, sources))
  }

  /** The dependency graph of a partial-order plan under numbering `m`. */
  function PartialOrderGraph(adj: Adjacency, m: map<PlanNode, int>): DepGraph
    requires Numbering(adj, m) && KeysKnown(adj)
  {
    RowsGraph(Rows(adj, m, |adj|), m[StartNode], m[EndNode])
  }

  // ---------------------------------------------------------------------------
  // The conversion
  // ---------------------------------------------------------------------------

  /** `for v in vs: g.add_edge(u, v)`, from a graph that holds `u`. */
  method LinkLoop(g0: DepGraph, u: int, vs: seq<int>) returns (g: DepGraph)
    requires u in g0.nodes
    ensures g == Graph(AddAllMissing(g0.nodes, vs), g0.attrs, g0.edges + Fan(u, vs))
  {
    g := g0;
    var j := 0;
    assert g0.edges + Fan(u, vs[..0]) == g0.edges;
    while j < |vs|
      invariant 0 <= j <= |vs|
      invariant g == Graph(AddAllMissing(g0.nodes, vs[..j]), g0.attrs, g0.edges + Fan(u, vs[..j]))
    {
      AddEdgeExtendsFan(g0, u, vs, j);
      g := AddEdge(g, u, vs[j]);
      j := j + 1;
    }
    assert vs[..j] == vs;
  }

  /** `for succ in successors: g.add_edge(node_map[action], node_map[succ])`
      for key `i`, then the edge to "end" when no successor is listed. */
  method LinkSuccessors(adj: Adjacency, m: map<PlanNode, int>, i: nat, g0: DepGraph) returns (g: DepGraph)
    requires Numbering(adj, m) && i < |adj| && Known(adj[i].0)
    requires RowOf(adj, m, i).id in g0.nodes
    ensures g == Graph(AddAllMissing(g0.nodes, Targets(RowOf(adj, m, i), m[EndNode])), g0.attrs,
                       g0.edges + Fan(RowOf(adj, m, i).id, Targets(RowOf(adj, m, i), m[EndNode])))
  {
    var (action, successors) := adj[i];
    var u := RowOf(adj, m, i).id;
    var ids := RowOf(adj, m, i).succs;
    g := g0;
    var j := 0;
    assert g0.edges + Fan(u, ids[..0]) == g0.edges;
    while j < |successors|
      invariant 0 <= j <= |successors|
      invariant g == Graph(AddAllMissing(g0.nodes, ids[..j]), g0.attrs, g0.edges + Fan(u, ids[..j]))
    {
      AddEdgeExtendsFan(g0, u, ids, j);
      g := AddEdge(g, u, m[StepNode(successors[j])]);
      j := j + 1;
    }
    assert ids[..j] == ids;
    if |successors| == 0 {
      AddEdgeExtendsFan(g0, u, [m[EndNode]], 0);
      assert [m[EndNode]][..1] == [m[EndNode]];
      g := AddEdge(g, u, m[EndNode]);
    }
  }

  /** `[node for node, in_degree in g.in_degree() if in_degree == 0]`. */
  method SourcesLoop(g: DepGraph) returns (r: seq<int>)
    ensures r == SourcesIn(g, g.nodes)
  {
    r := [];
    var i := 0;
    while i < |g.nodes|
      invariant 0 <= i <= |g.nodes|
      invariant r == SourcesIn(g, g.nodes[..i])
    {
      assert g.nodes[..i + 1][..i] == g.nodes[..i];
      if IsSource(g, g.nodes[i]) {
        r := r + [g.nodes[i]];
      }
      i := i + 1;
    }
    assert g.nodes[..i] == g.nodes;
  }

  /** One round of the main loop; `_process_action` rejects an unknown
      kind of action before the graph is touched. */
  method KeyStep(adj: Adjacency, m: map<PlanNode, int>, i: nat, g0: DepGraph) returns (r: Result<DepGraph, GraphError>)
    requires Numbering(adj, m) && i < |adj|
    ensures r.Err? <==> !Known(adj[i].0)
    ensures r.Err? ==> r.error == UnknownActionType
    ensures r.Ok? ==> Known(adj[i].0) && r.value == RowRound(g0, RowOf(adj, m, i), m[EndNode])
  {
    var (action, successors) := adj[i];
    var rec := ProcessAction(action);
    if rec.Err? {
      return Err(rec.error);
    }
    var u := RowOf(adj, m, i).id;
    var g := AddNode(g0, u, StepData(action, action.rendered));
    g := LinkSuccessors(adj, m, i, g);
    return Ok(g);
  }

  /** The node ids: collected, then numbered. */
  method PlanNodeIds(adj: Adjacency) returns (m: map<PlanNode, int>)
    ensures Numbering(adj, m)
  {
    var nodes := CollectPlanNodes(adj);
    m := NumberNodes(nodes);
  }

  /** The main loop has handled the first `i` keys. */
  ghost predicate RunSoFar(adj: Adjacency, m: map<PlanNode, int>, g: DepGraph, i: nat)
  {
    && Numbering(adj, m)
    && i <= |adj|
    && (forall k :: 0 <= k < i ==> Known(adj[k].0))
    && g == RowsRun(Rows(adj, m, i), m[EndNode])
  }

  lemma RunSoFarInit(adj: Adjacency, m: map<PlanNode, int>)
    requires Numbering(adj, m)
    ensures RunSoFar(adj, m, AddNode(Empty(), m[EndNode], Sentinel("end")), 0)
  {
    assert Rows(adj, m, 0) == [];
  }

  lemma RunSoFarStep(adj: Adjacency, m: map<PlanNode, int>, g: DepGraph, i: nat)
    requires RunSoFar(adj, m, g, i) && i < |adj| && Known(adj[i].0)
    ensures RunSoFar(adj, m, RowRound(g, RowOf(adj, m, i), m[EndNode]), i + 1)
  {
    RowsExtend(adj, m, i);
  }

  /** The rows of one more key. */
  lemma RowsExtend(adj: Adjacency, m: map<PlanNode, int>, k: nat)
    requires Numbering(adj, m) && k < |adj|
    requires forall i :: 0 <= i <= k ==> Known(adj[i].0)
    ensures Rows(adj, m, k + 1) == Rows(adj, m, k) + [RowOf(adj, m, k)]
  {
  }

  /** `_partial_order_plan_to_dependency_graph`: the graph is the one
      `PartialOrderGraph` describes for the numbering the set enumeration
      produced. */
  method PartialOrderPlanToGraph(adj: Adjacency) returns (r: Result<DepGraph, GraphError>)
    ensures r.Err? <==> !KeysKnown(adj)
    ensures r.Err? ==> r.error == UnknownActionType
    ensures r.Ok? ==> exists m :: Numbering(adj, m) && KeysKnown(adj) && r.value == PartialOrderGraph(adj, m)
  {
    var m := PlanNodeIds(adj);
    var run := MainLoop(adj, m);
    if run.Err? {
      return Err(run.error);
    }
    var g := LinkStart(run.value, m[StartNode]);
    assert g == PartialOrderGraph(adj, m);
    return Ok(g);
  }

  /** The node for "end", then one round per key. */
  method MainLoop(adj: Adjacency, m: map<PlanNode, int>) returns (r: Result<DepGraph, GraphError>)
    requires Numbering(adj, m)
    ensures r.Err? <==> !KeysKnown(adj)
    ensures r.Err? ==> r.error == UnknownActionType
    ensures r.Ok? ==> KeysKnown(adj) && r.value == RowsRun(Rows(adj, m, |adj|), m[EndNode])
  {
    var g: DepGraph := AddNode(Empty(), m[EndNode], Sentinel("end"));
    RunSoFarInit(adj, m);
    var i := 0;
    while i < |adj|
      invariant 0 <= i <= |adj|
      invariant RunSoFar(adj, m, g, i)
    {
      var step := KeyStep(adj, m, i, g);
      if step.Err? {
        assert !Known(adj[i].0);
        return Err(step.error);
      }
      RunSoFarStep(adj, m, g, i);
      g := step.value;
      i := i + 1;
    }
    return Ok(g);
  }

  /** After the main loop: "start" is added and linked to every node that
      has no predecessor yet. */
  method LinkStart(g0: DepGraph, startId: int) returns (g: DepGraph)
    ensures g == Graph(AddAllMissing(AddMissing(g0.nodes, startId), SourcesIn(g0, g0.nodes)),
                       g0.attrs[startId := Sentinel("start")],
                       g0.edges + Fan(startId, SourcesIn(g0, g0.nodes)))
  {
    var startNodes := SourcesLoop(g0);
    g := AddNode(g0, startId, Sentinel("start"));
    g := LinkLoop(g, startId, startNodes);
  }

  // ---------------------------------------------------------------------------
  // Properties of the main loop, for any rows
  // ---------------------------------------------------------------------------

  /** The edges the round of row `r` adds. */
  predicate RowEdge(r: Row, endId: int, u: int, v: int)
  {
    u == r.id && v in Targets(r, endId)
  }

  /** Row `r` names node `n`, as its key or as one of its successors. */
  predicate RowMentions(r: Row, n: int)
  {
    n == r.id || n in r.succs
  }

  /** No later row has the same id as row `i`. */
  predicate LastOccurrence(rows: seq<Row>, i: nat)
    requires i < |rows|
  {
    forall j :: i < j < |rows| ==> rows[j].id != rows[i].id
  }

  /** The main loop keeps the graph well formed. */
  lemma {:induction false} RowsRunValid(rows: seq<Row>, endId: int)
    ensures Valid(RowsRun(rows, endId))
  {
    if rows == [] {
      AddNodeValid(Empty(), endId, Sentinel("end"));
    } else {
      RowsRunValid(rows[..|rows| - 1], endId);
    }
  }

  /** Every edge a round adds is in the graph at the end of the loop. */
  lemma {:induction false} RowsRunEdgeIn(rows: seq<Row>, endId: int, i: nat, u: int, v: int)
    requires i < |rows| && RowEdge(rows[i], endId, u, v)
    ensures (u, v) in RowsRun(rows, endId).edges
  {
    var front := rows[..|rows| - 1];
    if i < |front| {
      assert front[i] == rows[i];
      RowsRunEdgeIn(front, endId, i, u, v);
    }
  }

  /** Every edge of the graph was added by some round. */
  lemma {:induction false} RowsRunEdgeFrom(rows: seq<Row>, endId: int, u: int, v: int) returns (i: nat)
    requires (u, v) in RowsRun(rows, endId).edges
    ensures i < |rows| && RowEdge(rows[i], endId, u, v)
  {
    var front := rows[..|rows| - 1];
    if rows != [] && (u, v) in RowsRun(front, endId).edges {
      i := RowsRunEdgeFrom(front, endId, u, v);
      assert front[i] == rows[i];
    } else {
      i := |rows| - 1;
    }
  }

  /** "end" and every node a row names are in the graph. */
  lemma {:induction false} RowsRunNodeIn(rows: seq<Row>, endId: int, i: nat, n: int)
    requires i < |rows| && RowMentions(rows[i], n)
    ensures endId in RowsRun(rows, endId).nodes
    ensures n in RowsRun(rows, endId).nodes
  {
    var front := rows[..|rows| - 1];
    if i < |front| {
      assert front[i] == rows[i];
      RowsRunNodeIn(front, endId, i, n);
    } else if front == [] {
    } else {
      RowsRunNodeIn(front, endId, 0, front[0].id);
    }
  }

  /** Every node of the graph is "end" or is named by a row. */
  lemma {:induction false} RowsRunNodeFrom(rows: seq<Row>, endId: int, n: int) returns (i: nat)
    requires n in RowsRun(rows, endId).nodes && n != endId
    ensures i < |rows| && RowMentions(rows[i], n)
  {
    var front := rows[..|rows| - 1];
    if rows != [] && n in RowsRun(front, endId).nodes {
      i := RowsRunNodeFrom(front, endId, n);
      assert front[i] == rows[i];
    } else {
      i := |rows| - 1;
    }
  }

  /** The records the main loop leaves: the "end" record, then one per row,
      a later row overwriting an earlier one with the same key. */
  function RowsAttrs(rows: seq<Row>, endId: int): map<int, NodeData>
  {
    if rows == [] then map[endId := Sentinel("end")]
    else RowsAttrs(rows[..|rows| - 1], endId)[rows[|rows| - 1].id := rows[|rows| - 1].data]
  }

  lemma {:induction false} RowsRunAttrsOf(rows: seq<Row>, endId: int)
    ensures RowsRun(rows, endId).attrs == RowsAttrs(rows, endId)
  {
    if rows != [] {
      RowsRunAttrsOf(rows[..|rows| - 1], endId);
    }
  }

  /** A node has a record exactly when it is "end" or the key of a row; the
      record is the one of the last row with that key, or the "end" record
      when no row has it as key. */
  lemma RowsRunAttrs(rows: seq<Row>, endId: int, n: int)
    ensures n in RowsRun(rows, endId).attrs <==> n == endId || exists i :: 0 <= i < |rows| && rows[i].id == n
    ensures n == endId && (forall i :: 0 <= i < |rows| ==> rows[i].id != n) ==>
              n in RowsRun(rows, endId).attrs && RowsRun(rows, endId).attrs[n] == Sentinel("end")
  {
    RowsRunAttrsOf(rows, endId);
    RowsAttrsKeys(rows, endId, n);
  }

  lemma {:induction false} RowsAttrsKeys(rows: seq<Row>, endId: int, n: int)
    ensures n in RowsAttrs(rows, endId) <==> n == endId || exists i :: 0 <= i < |rows| && rows[i].id == n
    ensures n == endId && (forall i :: 0 <= i < |rows| ==> rows[i].id != n) ==>
              n in RowsAttrs(rows, endId) && RowsAttrs(rows, endId)[n] == Sentinel("end")
  {
    if rows != [] {
      var front := rows[..|rows| - 1];
      RowsAttrsKeys(front, endId, n);
      if exists i :: 0 <= i < |front| && front[i].id == n {
        var i :| 0 <= i < |front| && front[i].id == n;
        assert rows[i].id == n;
      }
      if exists i :: 0 <= i < |rows| && rows[i].id == n {
        var i :| 0 <= i < |rows| && rows[i].id == n;
        if i < |front| {
          assert front[i].id == n;
        }
      }
    }
  }

  /** The record of the key of row `i`, when no later row has the same key. */
  lemma RowsRunRecord(rows: seq<Row>, endId: int, i: nat)
    requires i < |rows| && LastOccurrence(rows, i)
    ensures rows[i].id in RowsRun(rows, endId).attrs
    ensures RowsRun(rows, endId).attrs[rows[i].id] == rows[i].data
  {
    RowsRunAttrsOf(rows, endId);
    RowsAttrsRecord(rows, endId, i);
  }

  lemma {:induction false} RowsAttrsRecord(rows: seq<Row>, endId: int, i: nat)
    requires i < |rows| && LastOccurrence(rows, i)
    ensures rows[i].id in RowsAttrs(rows, endId)
    ensures RowsAttrs(rows, endId)[rows[i].id] == rows[i].data
  {
    var front := rows[..|rows| - 1];
    if i < |front| {
      LastOccurrenceFront(rows, i);
      RowsAttrsRecord(front, endId, i);
    }
  }

  lemma LastOccurrenceFront(rows: seq<Row>, i: nat)
    requires i < |rows| - 1 && LastOccurrence(rows, i)
    ensures rows[..|rows| - 1][i] == rows[i]
    ensures LastOccurrence(rows[..|rows| - 1], i)
    ensures rows[|rows| - 1].id != rows[i].id
  {
    var front := rows[..|rows| - 1];
    forall j | i < j < |front| ensures front[j].id != front[i].id {
      assert front[j] == rows[j];
    }
  }

  // ---------------------------------------------------------------------------
  // Properties of the "start" node, for any rows
  // ---------------------------------------------------------------------------

  /** Adding "start" keeps the graph well formed. */
  lemma RowsGraphValid(rows: seq<Row>, startId: int, endId: int)
    ensures Valid(RowsGraph(rows, startId, endId))
  {
    var g := RowsRun(rows, endId);
    RowsRunValid(rows, endId);
  }

  /** The edges of the final graph: those of the main loop, and one from
      "start" to every node the main loop left without a predecessor. */
  lemma RowsGraphEdges(rows: seq<Row>, startId: int, endId: int, u: int, v: int)
    ensures (u, v) in RowsGraph(rows, startId, endId).edges <==>
              (u, v) in RowsRun(rows, endId).edges
              || (u == startId && v in RowsRun(rows, endId).nodes && IsSource(RowsRun(rows, endId), v))
  {
  }

  /** When "start" is a fresh id, it is the only node without a predecessor. */
  lemma RowsGraphOnlySource(rows: seq<Row>, startId: int, endId: int)
    requires startId !in RowsRun(rows, endId).nodes
    ensures IsSource(RowsGraph(rows, startId, endId), startId)
    ensures forall n :: n in RowsGraph(rows, startId, endId).nodes && n != startId ==>
              Predecessors(RowsGraph(rows, startId, endId), n) != {}
  {
    var g := RowsRun(rows, endId);
    var G := RowsGraph(rows, startId, endId);
    RowsRunValid(rows, endId);
    forall n | n in G.nodes && n != startId
      ensures Predecessors(G, n) != {}
    {
      if IsSource(g, n) {
        assert (startId, n) in G.edges;
      } else {
        var e :| e in g.edges && e.1 == n;
        assert e.0 in Predecessors(G, n);
      }
    }
  }

  /** When "start" is a fresh id, it is linked to exactly the nodes whose
      only predecessor it is. */
  lemma RowsGraphStartEdges(rows: seq<Row>, startId: int, endId: int, v: int)
    requires startId !in RowsRun(rows, endId).nodes
    ensures (startId, v) in RowsGraph(rows, startId, endId).edges <==>
              v in RowsGraph(rows, startId, endId).nodes && v != startId
              && Predecessors(RowsGraph(rows, startId, endId), v) == {startId}
  {
    var g := RowsRun(rows, endId);
    var G := RowsGraph(rows, startId, endId);
    RowsRunValid(rows, endId);
    if (startId, v) in G.edges {
      assert (startId, v) !in g.edges;
      assert v in g.nodes && IsSource(g, v);
      forall p | p in Predecessors(G, v) ensures p == startId {
        assert (p, v) !in g.edges;
      }
    }
    if v in G.nodes && v != startId && Predecessors(G, v) == {startId} {
      assert v in g.nodes;
      forall e | e in g.edges ensures e.1 != v {
        assert e.0 in Predecessors(G, e.1);
      }
    }
  }

  // ---------------------------------------------------------------------------
  // The graph of a partial-order plan
  // ---------------------------------------------------------------------------

  /** Key `i` lists `v` as a successor, or lists none and `v` is "end", in
      node ids; `u` is the id of the key. */
  ghost predicate PlanEdge(adj: Adjacency, m: map<PlanNode, int>, i: nat, u: int, v: int)
    requires Numbering(adj, m) && i < |adj|
  {
    PlanNodesHold(adj, i);
    && u == m[StepNode(adj[i].0)]
    && ((exists j :: 0 <= j < |adj[i].1| && v == m[StepNode(adj[i].1[j])])
        || (adj[i].1 == [] && v == m[EndNode]))
  }

  /** The key of every entry is listed once, as in a Python dict. */
  predicate KeysDistinct(adj: Adjacency)
  {
    forall i, j :: 0 <= i < j < |adj| ==> adj[i].0 != adj[j].0
  }

  /** No node the main loop creates has the id of "start". */
  lemma StartIsFresh(adj: Adjacency, m: map<PlanNode, int>)
    requires Numbering(adj, m) && KeysKnown(adj)
    ensures m[StartNode] !in RowsRun(Rows(adj, m, |adj|), m[EndNode]).nodes
  {
    var rows := Rows(adj, m, |adj|);
    var s := m[StartNode];
    if s in RowsRun(rows, m[EndNode]).nodes {
      assert s != m[EndNode];
      var i := RowsRunNodeFrom(rows, m[EndNode], s);
      assert false;
    }
  }

  /** Row `i` adds exactly the plan edges of key `i`. */
  lemma RowEdgeIsPlanEdge(adj: Adjacency, m: map<PlanNode, int>, i: nat, u: int, v: int)
    requires Numbering(adj, m) && i < |adj| && Known(adj[i].0)
    ensures RowEdge(RowOf(adj, m, i), m[EndNode], u, v) <==> PlanEdge(adj, m, i, u, v)
  {
    var r := RowOf(adj, m, i);
    if v in r.succs {
      var j :| 0 <= j < |r.succs| && r.succs[j] == v;
      assert v == m[StepNode(adj[i].1[j])];
    }
    if exists j :: 0 <= j < |adj[i].1| && v == m[StepNode(adj[i].1[j])] {
      var j :| 0 <= j < |adj[i].1| && v == m[StepNode(adj[i].1[j])];
      assert r.succs[j] == v;
    }
  }

  /** Every plan edge is an edge of the graph. */
  lemma PartialOrderPlanEdgeIn(adj: Adjacency, m: map<PlanNode, int>, i: nat, u: int, v: int)
    requires Numbering(adj, m) && KeysKnown(adj) && i < |adj|
    requires PlanEdge(adj, m, i, u, v)
    ensures (u, v) in PartialOrderGraph(adj, m).edges
  {
    var rows := Rows(adj, m, |adj|);
    assert rows[i] == RowOf(adj, m, i);
    RowEdgeIsPlanEdge(adj, m, i, u, v);
    RowsRunEdgeIn(rows, m[EndNode], i, u, v);
    RowsGraphEdges(rows, m[StartNode], m[EndNode], u, v);
  }

  /** Every edge that does not leave "start" is a plan edge. */
  lemma PartialOrderEdgeFrom(adj: Adjacency, m: map<PlanNode, int>, u: int, v: int) returns (i: nat)
    requires Numbering(adj, m) && KeysKnown(adj)
    requires (u, v) in PartialOrderGraph(adj, m).edges && u != m[StartNode]
    ensures i < |adj| && PlanEdge(adj, m, i, u, v)
  {
    var rows := Rows(adj, m, |adj|);
    RowsGraphEdges(rows, m[StartNode], m[EndNode], u, v);
    i := RowsRunEdgeFrom(rows, m[EndNode], u, v);
    assert rows[i] == RowOf(adj, m, i);
    RowEdgeIsPlanEdge(adj, m, i, u, v);
  }

  /** "start" has no predecessor and is the only node without one; it is
      linked to exactly the nodes no plan edge enters. The graph is well
      formed. */
  lemma PartialOrderStart(adj: Adjacency, m: map<PlanNode, int>, v: int)
    requires Numbering(adj, m) && KeysKnown(adj)
    ensures Valid(PartialOrderGraph(adj, m))
    ensures IsSource(PartialOrderGraph(adj, m), m[StartNode])
    ensures forall n :: n in PartialOrderGraph(adj, m).nodes && n != m[StartNode] ==>
              Predecessors(PartialOrderGraph(adj, m), n) != {}
    ensures (m[StartNode], v) in PartialOrderGraph(adj, m).edges <==>
              v in PartialOrderGraph(adj, m).nodes && v != m[StartNode]
              && Predecessors(PartialOrderGraph(adj, m), v) == {m[StartNode]}
  {
    var rows := Rows(adj, m, |adj|);
    StartIsFresh(adj, m);
    RowsGraphValid(rows, m[StartNode], m[EndNode]);
    RowsGraphOnlySource(rows, m[StartNode], m[EndNode]);
    RowsGraphStartEdges(rows, m[StartNode], m[EndNode], v);
  }

  /** Every node of the plan, "start" and "end" included, is a node of the
      graph. */
  lemma PartialOrderNodeIn(adj: Adjacency, m: map<PlanNode, int>, p: PlanNode)
    requires Numbering(adj, m) && KeysKnown(adj) && p in m
    ensures m[p] in PartialOrderGraph(adj, m).nodes
  {
    var rows := Rows(adj, m, |adj|);
    var e := m[EndNode];
    if p.StepNode? {
      PlanNodesExactly(adj, p.step);
      var i :| 0 <= i < |adj| && (adj[i].0 == p.step || p.step in adj[i].1);
      var r := RowOf(adj, m, i);
      assert rows[i] == r;
      if adj[i].0 != p.step {
        var j :| 0 <= j < |adj[i].1| && adj[i].1[j] == p.step;
        assert r.succs[j] == m[p];
      }
      RowsRunNodeIn(rows, e, i, m[p]);
    } else if p == EndNode && rows != [] {
      RowsRunNodeIn(rows, e, 0, rows[0].id);
    }
  }

  /** Every node of the graph is the id of a node of the plan. */
  lemma PartialOrderNodeFrom(adj: Adjacency, m: map<PlanNode, int>, n: int) returns (p: PlanNode)
    requires Numbering(adj, m) && KeysKnown(adj) && n in PartialOrderGraph(adj, m).nodes
    ensures p in m && m[p] == n
  {
    var rows := Rows(adj, m, |adj|);
    var e := m[EndNode];
    if n == m[StartNode] {
      p := StartNode;
    } else if n == e {
      p := EndNode;
    } else {
      var i := RowsRunNodeFrom(rows, e, n);
      var r := RowOf(adj, m, i);
      assert rows[i] == r;
      if n == r.id {
        p := StepNode(adj[i].0);
      } else {
        var j :| 0 <= j < |r.succs| && r.succs[j] == n;
        p := StepNode(adj[i].1[j]);
      }
    }
  }

  /** "start" and "end" carry their sentinel records. */
  lemma PartialOrderSentinels(adj: Adjacency, m: map<PlanNode, int>)
    requires Numbering(adj, m) && KeysKnown(adj)
    ensures m[StartNode] in PartialOrderGraph(adj, m).attrs
    ensures PartialOrderGraph(adj, m).attrs[m[StartNode]] == Sentinel("start")
    ensures m[EndNode] in PartialOrderGraph(adj, m).attrs
    ensures PartialOrderGraph(adj, m).attrs[m[EndNode]] == Sentinel("end")
  {
    var rows := Rows(adj, m, |adj|);
    var e := m[EndNode];
    forall i | 0 <= i < |rows| ensures rows[i].id != e {
      assert rows[i] == RowOf(adj, m, i);
    }
    RowsRunAttrs(rows, e, e);
  }

  /** Each key carries the record `_process_action` made for it. */
  lemma PartialOrderKeyRecord(adj: Adjacency, m: map<PlanNode, int>, i: nat)
    requires Numbering(adj, m) && KeysKnown(adj) && KeysDistinct(adj) && i < |adj|
    ensures StepNode(adj[i].0) in m && m[StepNode(adj[i].0)] in PartialOrderGraph(adj, m).attrs
    ensures PartialOrderGraph(adj, m).attrs[m[StepNode(adj[i].0)]] == StepData(adj[i].0, adj[i].0.rendered)
  {
    var rows := Rows(adj, m, |adj|);
    assert rows[i] == RowOf(adj, m, i);
    assert LastOccurrence(rows, i) by {
      forall j | i < j < |rows| ensures rows[j].id != rows[i].id {
        assert rows[j] == RowOf(adj, m, j);
        assert adj[i].0 != adj[j].0;
      }
    }
    RowsRunRecord(rows, m[EndNode], i);
  }

  /** A step of the plan has a record exactly when it is a key, so a step
      that is only ever listed as a successor is a bare node. */
  lemma PartialOrderRecordIff(adj: Adjacency, m: map<PlanNode, int>, a: ActionInstance)
    requires Numbering(adj, m) && KeysKnown(adj) && StepNode(a) in m
    ensures m[StepNode(a)] in PartialOrderGraph(adj, m).attrs <==> exists k :: 0 <= k < |adj| && adj[k].0 == a
  {
    var rows := Rows(adj, m, |adj|);
    var n := m[StepNode(a)];
    RowsRunAttrs(rows, m[EndNode], n);
    if exists k :: 0 <= k < |rows| && rows[k].id == n {
      var k :| 0 <= k < |rows| && rows[k].id == n;
      assert rows[k] == RowOf(adj, m, k);
    }
    if exists k :: 0 <= k < |adj| && adj[k].0 == a {
      var k :| 0 <= k < |adj| && adj[k].0 == a;
      assert rows[k] == RowOf(adj, m, k);
    }
  }

  /** A plan without steps becomes "start" linked to "end". */
  lemma PartialOrderEmptyPlan(adj: Adjacency, m: map<PlanNode, int>)
    requires Numbering(adj, m) && adj == []
    ensures PartialOrderGraph(adj, m).nodes == [m[EndNode], m[StartNode]]
    ensures PartialOrderGraph(adj, m).edges == {(m[StartNode], m[EndNode])}
  {
    var s, e := m[StartNode], m[EndNode];
    var g := RowsRun([], e);
    assert Rows(adj, m, 0) == [];
    assert g.nodes == [e] && g.edges == {};
    assert SourcesIn(g, g.nodes) == [e] by {
      assert IsSource(g, e);
      assert g.nodes[..0] == [];
    }
    assert s != e;
    assert AddMissing(g.nodes, s) == [e, s];
    assert AddAllMissing([e, s], [e]) == [e, s] by {
      assert [e][..0] == [];
    }
    assert Fan(s, [e]) == {(s, e)} by {
      forall x: (int, int) ensures x in Fan(s, [e]) <==> x == (s, e) {
        var (x0, x1) := x;
        assert (x0, x1) in Fan(s, [e]) <==> x0 == s && x1 in [e];
      }
    }
  }
}
