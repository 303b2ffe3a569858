/** `PlanMonitor` (up_esb/plexmo/monitor.py): a shadow copy of an executable
    graph that keeps, per node, only what the monitor tracks: whether the
    node was processed, its action and name, and its status. */
module Monitor {
  import opened Wrappers
  import opened Status
  import opened DiGraph
  import opened ExecutionBridge
  import Dispatcher

  /** The attributes of a shadow node, in the order the source sets them.
      The predecessor and successor lists are kept as their sets of nodes. */
  datatype MonitorRecord = MonitorRecord(
    processed: bool,
    action: string,
    status: ActionNodeStatus,
    nodeName: string,
    result: string,
    predecessors: set<int>,
    successors: set<int>)

  type MonitorGraph = Graph<int, MonitorRecord>

  /** What `process_action_result` does with the exception the result is
      classified as: raise it, or only log it as a warning. */
  datatype Reaction = Raise(exception: string) | Warn(message: string)

  /** `succOrder(n)` lists the successors of `n` once each, in the order the
      input graph yields the edges leaving `n`. */
  ghost predicate Enumerates(g: ExecGraph, succOrder: int -> seq<int>)
  {
    && (forall n :: Distinct(succOrder(n)))
    && (forall n, v :: v in succOrder(n) <==> (n, v) in g.edges)
  }

  lemma EnumeratesAt(g: ExecGraph, succOrder: int -> seq<int>, n: int, v: int)
    requires Enumerates(g, succOrder)
    ensures v in succOrder(n) <==> (n, v) in g.edges
  {
  }

  /** The first `k` nodes of `g` have attribute records. */
  predicate RecordedUpTo(g: ExecGraph, k: nat)
  {
    k <= |g.nodes| && forall j :: 0 <= j < k ==> g.nodes[j] in g.attrs
  }

  /** The record `_preprocess_graph` gives node `n`. */
  function InitialRecord(g: ExecGraph, n: int): MonitorRecord
    requires n in g.attrs
  {
    MonitorRecord(false, RecordAction(g.attrs[n]), NotStarted, RecordNodeName(g.attrs[n]), "",
                  Predecessors(g, n), Successors(g, n))
  }

  /** `s` followed by those of `vs` it does not hold yet, in order: the
      nodes `add_edge` appends for a run of edges. This is
      `DiGraph.AddAllMissing` without its postconditions, which are proved
      below as separate lemmas so that the recursive shadow stays cheap to
      unfold. */
  function AppendMissing(s: seq<int>, vs: seq<int>): seq<int>
  {
    if vs == [] then s
    else
      var r := AppendMissing(s, vs[..|vs| - 1]);
      if vs[|vs| - 1] in r then r else r + [vs[|vs| - 1]]
  }

  lemma {:induction false} AppendMissingIsAddAllMissing(s: seq<int>, vs: seq<int>)
    ensures AppendMissing(s, vs) == AddAllMissing(s, vs)
    decreases |vs|
  {
    if vs != [] {
      AppendMissingIsAddAllMissing(s, vs[..|vs| - 1]);
    }
  }

  lemma {:induction false} AppendMissingMembers(s: seq<int>, vs: seq<int>)
    ensures forall m :: m in AppendMissing(s, vs) <==> m in s || m in vs
    decreases |vs|
  {
    if vs != [] {
      var front := vs[..|vs| - 1];
      AppendMissingMembers(s, front);
      assert vs == front + [vs[|vs| - 1]];
    }
  }

  lemma {:induction false} AppendMissingDistinct(s: seq<int>, vs: seq<int>)
    requires Distinct(s)
    ensures Distinct(AppendMissing(s, vs))
    decreases |vs|
  {
    if vs != [] {
      var front := vs[..|vs| - 1];
      AppendMissingDistinct(s, front);
      var r := AppendMissing(s, front);
      var x := vs[|vs| - 1];
      if x !in r {
        forall i, j | 0 <= i < j < |r + [x]| ensures (r + [x])[i] != (r + [x])[j] {
          if j == |r| {
            assert (r + [x])[i] == r[i];
          }
        }
      }
    }
  }

  /** One node of `_preprocess_graph`: `n` is added with the record `rec`,
      then the edges from `n` to each of `succs` in turn. */
  function Step(s: MonitorGraph, n: int, rec: MonitorRecord, succs: seq<int>): MonitorGraph
  {
    Graph(AppendMissing(if n in s.nodes then s.nodes else s.nodes + [n], succs),
          s.attrs[n := rec],
          s.edges + set v | v in succs :: (n, v))
  }

  /** The shadow graph after the first `k` nodes of `g` have been processed
      in turn: each is added with its record, then the edges leaving it
      (which append missing targets as bare nodes). */
  function Shadow(g: ExecGraph, k: nat, succOrder: int -> seq<int>): MonitorGraph
    requires RecordedUpTo(g, k)
  {
    if k == 0 then Graph([], map[], {})
    else Step(Shadow(g, k - 1, succOrder), g.nodes[k - 1], InitialRecord(g, g.nodes[k - 1]), succOrder(g.nodes[k - 1]))
  }

  /** Every processed node gets its initial record, and only those do. */
  lemma {:induction false} ShadowRecords(g: ExecGraph, k: nat, succOrder: int -> seq<int>)
    requires RecordedUpTo(g, k)
    ensures forall n :: n in Shadow(g, k, succOrder).attrs ==> exists j :: 0 <= j < k && g.nodes[j] == n
    ensures forall j :: 0 <= j < k ==> g.nodes[j] in Shadow(g, k, succOrder).attrs
    ensures forall j :: 0 <= j < k ==> Shadow(g, k, succOrder).attrs[g.nodes[j]] == InitialRecord(g, g.nodes[j])
  {
    if k > 0 {
      ShadowRecords(g, k - 1, succOrder);
    }
  }

  /** The shadow holds exactly the edges leaving the processed nodes. */
  lemma {:induction false} ShadowEdges(g: ExecGraph, k: nat, succOrder: int -> seq<int>)
    requires Enumerates(g, succOrder)
    requires RecordedUpTo(g, k)
    ensures forall e :: e in Shadow(g, k, succOrder).edges <==> e in g.edges && exists j :: 0 <= j < k && g.nodes[j] == e.0
  {
    if k > 0 {
      ShadowEdges(g, k - 1, succOrder);
      var n := g.nodes[k - 1];
      var fan := set v | v in succOrder(n) :: (n, v);
      forall e ensures e in fan <==> e in g.edges && e.0 == n {
        var (x, y) := e;
        assert (x, y) in fan <==> x == n && y in succOrder(n);
        EnumeratesAt(g, succOrder, x, y);
      }
    }
  }

  /** The shadow's nodes are the processed nodes and their successors, each once. */
  lemma {:induction false} ShadowNodes(g: ExecGraph, k: nat, succOrder: int -> seq<int>)
    requires Enumerates(g, succOrder)
    requires RecordedUpTo(g, k)
    ensures Distinct(Shadow(g, k, succOrder).nodes)
    ensures forall n :: n in Shadow(g, k, succOrder).nodes <==>
              exists j :: 0 <= j < k && (g.nodes[j] == n || (g.nodes[j], n) in g.edges)
  {
    if k > 0 {
      ShadowNodes(g, k - 1, succOrder);
      var p := Shadow(g, k - 1, succOrder);
      var n := g.nodes[k - 1];
      AddNodeValid(Graph(p.nodes, map[], {}), n, InitialRecord(g, n));
      var added := if n in p.nodes then p.nodes else p.nodes + [n];
      AppendMissingMembers(added, succOrder(n));
      AppendMissingDistinct(added, succOrder(n));
      forall v ensures v in succOrder(n) <==> (n, v) in g.edges {
        EnumeratesAt(g, succOrder, n, v);
      }
    }
  }

  /** The shadow of a whole graph: the node ids of `g`, each once, the edges
      of `g`, and the initial record for every node. */
  lemma ShadowOfGraph(g: ExecGraph, succOrder: int -> seq<int>)
    requires Valid(g) && Enumerates(g, succOrder) && RecordedUpTo(g, |g.nodes|)
    ensures Distinct(Shadow(g, |g.nodes|, succOrder).nodes)
    ensures forall n :: n in Shadow(g, |g.nodes|, succOrder).nodes <==> n in g.nodes
    ensures Shadow(g, |g.nodes|, succOrder).edges == g.edges
    ensures forall n :: n in Shadow(g, |g.nodes|, succOrder).attrs <==> n in g.nodes
    ensures forall n :: n in g.nodes ==> n in g.attrs && Shadow(g, |g.nodes|, succOrder).attrs[n] == InitialRecord(g, n)
  {
    var k := |g.nodes|;
    var sh := Shadow(g, k, succOrder);
    ShadowNodes(g, k, succOrder);
    ShadowEdges(g, k, succOrder);
    ShadowRecords(g, k, succOrder);
    forall n ensures n in sh.nodes <==> n in g.nodes {
      if n in sh.nodes {
        var j :| 0 <= j < k && (g.nodes[j] == n || (g.nodes[j], n) in g.edges);
      }
      if n in g.nodes {
        var j :| 0 <= j < k && g.nodes[j] == n;
      }
    }
    forall e ensures e in sh.edges <==> e in g.edges {
      if e in g.edges {
        var j :| 0 <= j < k && g.nodes[j] == e.0;
      }
    }
    forall n | n in g.nodes ensures n in g.attrs && sh.attrs[n] == InitialRecord(g, n) {
      var j :| 0 <= j < k && g.nodes[j] == n;
    }
  }

  /** A graph whose every edge leads backwards or to the very next node, such
      as the chain of a sequential plan, is shadowed with its node order. */
  lemma ShadowKeepsChainOrder(g: ExecGraph, succOrder: int -> seq<int>)
    requires Valid(g) && Enumerates(g, succOrder) && RecordedUpTo(g, |g.nodes|)
    requires forall i, j :: 0 <= i < |g.nodes| && 0 <= j < |g.nodes| && (g.nodes[i], g.nodes[j]) in g.edges ==> j <= i + 1
    ensures Shadow(g, |g.nodes|, succOrder).nodes == g.nodes
  {
    ShadowPrefixOrder(g, succOrder, |g.nodes|);
    assert g.nodes[..|g.nodes|] == g.nodes;
  }

  lemma {:induction false} ShadowPrefixOrder(g: ExecGraph, succOrder: int -> seq<int>, k: nat)
    requires Valid(g) && Enumerates(g, succOrder) && RecordedUpTo(g, |g.nodes|)
    requires forall i, j :: 0 <= i < |g.nodes| && 0 <= j < |g.nodes| && (g.nodes[i], g.nodes[j]) in g.edges ==> j <= i + 1
    requires k <= |g.nodes|
    ensures RecordedUpTo(g, k)
    ensures var sn := Shadow(g, k, succOrder).nodes;
            sn == g.nodes[..k] || (k < |g.nodes| && sn == g.nodes[..k + 1])
  {
    if k > 0 {
      ShadowPrefixOrder(g, succOrder, k - 1);
      SuccessorsWithinNext(g, succOrder, k);
      ChainStep(g.nodes, k, Shadow(g, k - 1, succOrder).nodes, succOrder(g.nodes[k - 1]));
    }
  }

  lemma SuccessorsWithinNext(g: ExecGraph, succOrder: int -> seq<int>, k: nat)
    requires Valid(g) && Enumerates(g, succOrder)
    requires forall i, j :: 0 <= i < |g.nodes| && 0 <= j < |g.nodes| && (g.nodes[i], g.nodes[j]) in g.edges ==> j <= i + 1
    requires 0 < k <= |g.nodes|
    ensures forall v :: v in succOrder(g.nodes[k - 1]) ==> v in g.nodes[..k] || (k < |g.nodes| && v == g.nodes[k])
  {
    forall v | v in succOrder(g.nodes[k - 1]) ensures v in g.nodes[..k] || (k < |g.nodes| && v == g.nodes[k]) {
      EnumeratesAt(g, succOrder, g.nodes[k - 1], v);
      assert v in g.nodes;
      var j :| 0 <= j < |g.nodes| && g.nodes[j] == v;
      assert j < k ==> g.nodes[..k][j] == v;
    }
  }

  /** The node sequence of one step of `_preprocess_graph` over a node order
      whose edges only lead backwards or one node ahead. */
  lemma ChainStep(nodes: seq<int>, k: nat, pn: seq<int>, succs: seq<int>)
    requires Distinct(nodes) && 0 < k <= |nodes|
    requires pn == nodes[..k - 1] || pn == nodes[..k]
    requires forall v :: v in succs ==> v in nodes[..k] || (k < |nodes| && v == nodes[k])
    ensures var r := AppendMissing(if nodes[k - 1] in pn then pn else pn + [nodes[k - 1]], succs);
            r == nodes[..k] || (k < |nodes| && r == nodes[..k + 1])
  {
    assert nodes[..k] == nodes[..k - 1] + [nodes[k - 1]];
    if pn == nodes[..k - 1] {
      assert nodes[k - 1] !in pn;
    }
    assert (if nodes[k - 1] in pn then pn else pn + [nodes[k - 1]]) == nodes[..k];
    if k < |nodes| {
      assert nodes[k] !in nodes[..k];
      AppendMissingNext(nodes[..k], succs, nodes[k]);
      assert nodes[..k + 1] == nodes[..k] + [nodes[k]];
    } else {
      AppendMissingPresent(nodes[..k], succs);
    }
  }

  /** Appending elements that are present, or are `x`, appends at most `x`. */
  lemma {:induction false} AppendMissingNext(s: seq<int>, vs: seq<int>, x: int)
    requires x !in s
    requires forall v :: v in vs ==> v in s || v == x
    ensures AppendMissing(s, vs) == s || AppendMissing(s, vs) == s + [x]
    decreases |vs|
  {
    if vs != [] {
      var front := vs[..|vs| - 1];
      assert forall v :: v in front ==> v in vs;
      assert vs[|vs| - 1] in vs;
      AppendMissingNext(s, front, x);
    }
  }

  /** Appending elements that are all present changes nothing. */
  lemma {:induction false} AppendMissingPresent(s: seq<int>, vs: seq<int>)
    requires forall v :: v in vs ==> v in s
    ensures AppendMissing(s, vs) == s
    decreases |vs|
  {
    if vs != [] {
      var front := vs[..|vs| - 1];
      assert forall v :: v in front ==> v in vs;
      assert vs[|vs| - 1] in vs;
      AppendMissingPresent(s, front);
      var x := vs[|vs| - 1];
      assert x in s;
      assert AppendMissing(s, front) == s;
      assert x in AppendMissing(s, front);
      assert AppendMissing(s, vs) == AppendMissing(s, front);
    }
  }

  /** Every node of a shadow graph carries a record. */
  ghost predicate Complete(g: MonitorGraph)
  {
    forall i :: 0 <= i < |g.nodes| ==> g.nodes[i] in g.attrs
  }

  /** `_get_action_status`: the status of the first node, from position `i`
      on, whose name is `name`, or UNKNOWN. */
  function StatusOf(g: MonitorGraph, name: string, i: nat): (s: ActionNodeStatus)
    requires Complete(g)
    decreases |g.nodes| - i
  {
    if i >= |g.nodes| then Unknown
    else if g.attrs[g.nodes[i]].nodeName == name then g.attrs[g.nodes[i]].status
    else StatusOf(g, name, i + 1)
  }

  /** The search finds the first node with the name, and reports UNKNOWN when
      no node has it. */
  lemma {:induction false} StatusOfSpec(g: MonitorGraph, name: string, i: nat)
    requires Complete(g)
    ensures (forall j :: i <= j < |g.nodes| ==> g.attrs[g.nodes[j]].nodeName != name) ==> StatusOf(g, name, i) == Unknown
    ensures forall j :: i <= j < |g.nodes| && g.attrs[g.nodes[j]].nodeName == name
                        && (forall l :: i <= l < j ==> g.attrs[g.nodes[l]].nodeName != name)
                        ==> StatusOf(g, name, i) == g.attrs[g.nodes[j]].status
    decreases |g.nodes| - i
  {
    if i < |g.nodes| && g.attrs[g.nodes[i]].nodeName != name {
      StatusOfSpec(g, name, i + 1);
    }
  }

  /** `update_action_status` on node `id`. */
  function Updated(g: MonitorGraph, id: int, status: ActionNodeStatus): MonitorGraph
    requires id in g.attrs
  {
    g.(attrs := g.attrs[id := g.attrs[id].(status := status, processed := true)])
  }

  /** After node `id` is updated, asking for its name, when it is the first
      node with that name, reports the new status. */
  lemma UpdateThenStatus(g: MonitorGraph, id: int, status: ActionNodeStatus, k: nat)
    requires Complete(g) && k < |g.nodes| && g.nodes[k] == id
    requires forall l :: 0 <= l < k ==> g.attrs[g.nodes[l]].nodeName != g.attrs[id].nodeName
    ensures Complete(Updated(g, id, status))
    ensures StatusOf(Updated(g, id, status), g.attrs[id].nodeName, 0) == status
  {
    var u := Updated(g, id, status);
    StatusOfSpec(u, g.attrs[id].nodeName, 0);
    assert forall l :: 0 <= l < k ==> g.nodes[l] != id;
  }

  /** Updating node `id` leaves the status found for a name that node does
      not carry unchanged. */
  lemma UpdateOtherStatus(g: MonitorGraph, id: int, status: ActionNodeStatus, name: string, i: nat)
    requires Complete(g) && id in g.attrs && g.attrs[id].nodeName != name
    ensures Complete(Updated(g, id, status))
    ensures StatusOf(Updated(g, id, status), name, i) == StatusOf(g, name, i)
    decreases |g.nodes| - i
  {
    if i < |g.nodes| {
      UpdateOtherStatus(g, id, status, name, i + 1);
    }
  }

  class PlanMonitor {
    var graph: MonitorGraph
    var status: MonitorStatus
    var actionStatus: ActionNodeStatus

    ghost predicate Valid()
      reads this
    {
      Complete(graph)
    }

    constructor FromShadow(shadow: MonitorGraph)
      requires Complete(shadow)
      ensures Valid()
      ensures graph == shadow && status == MonitorIdle && actionStatus == NotStarted
    {
      graph := shadow;
      status := MonitorIdle;
      actionStatus := NotStarted;
    }

    /** `PlanMonitor(executable_graph)`: the monitor over the shadow of the
        graph, or the first node whose missing record raises KeyError. */
    static method New(g: ExecGraph, succOrder: int -> seq<int>) returns (r: Result<PlanMonitor, int>)
      requires DiGraph.Valid(g) && Enumerates(g, succOrder)
      ensures r.Err? <==> FirstBare(g.nodes, g.attrs) < |g.nodes|
      ensures r.Err? ==> r.error == g.nodes[FirstBare(g.nodes, g.attrs)]
      ensures r.Ok? ==> fresh(r.value) && r.value.Valid()
      ensures r.Ok? ==> r.value.status == MonitorIdle && r.value.actionStatus == NotStarted
      ensures r.Ok? ==> RecordedUpTo(g, |g.nodes|) && r.value.graph == Shadow(g, |g.nodes|, succOrder)
    {
      var built := PreprocessGraph(g, succOrder);
      if built.Err? {
        return Err(built.error);
      }
      ShadowComplete(g, succOrder);
      var m := new PlanMonitor.FromShadow(built.value);
      return Ok(m);
    }

    /** The `status` property. */
    function GetStatus(): (s: MonitorStatus)
      reads this
      ensures s == status
    {
      status
    }

    /** The `status` setter. */
    method SetStatus(s: MonitorStatus)
      modifies this
      ensures status == s && graph == old(graph) && actionStatus == old(actionStatus)
    {
      status := s;
    }

    /** `get_action_status(name)`: the status of the first node named `name`,
        or UNKNOWN, also kept as the last action status. */
    method GetActionStatus(name: string) returns (s: ActionNodeStatus)
      requires Valid()
      modifies this
      ensures graph == old(graph) && status == old(status) && Valid()
      ensures s == StatusOf(graph, name, 0) && actionStatus == s
    {
      var i := 0;
      s := Unknown;
      while i < |graph.nodes|
        invariant 0 <= i <= |graph.nodes|
        invariant StatusOf(graph, name, 0) == StatusOf(graph, name, i)
      {
        var rec := graph.attrs[graph.nodes[i]];
        if rec.nodeName == name {
          s := rec.status;
          break;
        }
        i := i + 1;
      }
      actionStatus := s;
    }

    /** `update_action_status(node_id, status)`: false where the node does not
        exist (KeyError); otherwise that node alone gets the status and is
        marked processed. */
    method UpdateActionStatus(id: int, st: ActionNodeStatus) returns (ok: bool)
      requires Valid()
      modifies this
      ensures ok <==> id in old(graph).attrs
      ensures graph == if ok then Updated(old(graph), id, st) else old(graph)
      ensures status == old(status) && actionStatus == old(actionStatus) && Valid()
    {
      if id !in graph.attrs {
        return false;
      }
      graph := Updated(graph, id, st);
      return true;
    }
  }

  /** After a run without a missing record, every shadow node has a record. */
  lemma ShadowComplete(g: ExecGraph, succOrder: int -> seq<int>)
    requires Valid(g) && Enumerates(g, succOrder) && RecordedUpTo(g, |g.nodes|)
    ensures Complete(Shadow(g, |g.nodes|, succOrder))
  {
    var sh := Shadow(g, |g.nodes|, succOrder);
    ShadowOfGraph(g, succOrder);
    forall i | 0 <= i < |sh.nodes| ensures sh.nodes[i] in sh.attrs {
      assert sh.nodes[i] in sh.nodes;
    }
  }

  /** `_preprocess_graph`: the shadow of `g`, or the first node whose
      missing record raises KeyError. */
  method PreprocessGraph(g: ExecGraph, succOrder: int -> seq<int>) returns (r: Result<MonitorGraph, int>)
    ensures r.Err? <==> FirstBare(g.nodes, g.attrs) < |g.nodes|
    ensures r.Err? ==> r.error == g.nodes[FirstBare(g.nodes, g.attrs)]
    ensures r.Ok? ==> RecordedUpTo(g, |g.nodes|) && r.value == Shadow(g, |g.nodes|, succOrder)
  {
    var shadow: MonitorGraph := Graph([], map[], {});
    var i := 0;
    while i < |g.nodes|
      invariant RecordedUpTo(g, i)
      invariant shadow == Shadow(g, i, succOrder)
    {
      var n := g.nodes[i];
      if n !in g.attrs {
        FirstBareAt(g.nodes, g.attrs, i);
        return Err(n);
      }
      shadow := AddWithEdges(shadow, n, InitialRecord(g, n), succOrder(n));
      i := i + 1;
    }
    FirstBareAt(g.nodes, g.attrs, i);
    return Ok(shadow);
  }

  /** The loop body of `_preprocess_graph` for node `n`: add the node with
      its record, then each edge leaving it in turn. */
  method AddWithEdges(shadow: MonitorGraph, n: int, rec: MonitorRecord, succs: seq<int>) returns (r: MonitorGraph)
    ensures r == Step(shadow, n, rec, succs)
  {
    var base := AddNode(shadow, n, rec);
    r := base;
    var j := 0;
    assert succs[..0] == [];
    assert base.edges + Fan(n, succs[..0]) == base.edges;
    while j < |succs|
      invariant 0 <= j <= |succs|
      invariant r == Graph(AddAllMissing(base.nodes, succs[..j]), base.attrs, base.edges + Fan(n, succs[..j]))
    {
      AddEdgeExtendsFan(base, n, succs, j);
      r := AddEdge(r, n, succs[j]);
      j := j + 1;
    }
    assert succs[..j] == succs;
    StepByEdges(shadow, n, rec, succs);
  }

  /** `Step` is `add_node` followed by `add_edge` for each successor. */
  lemma StepByEdges(shadow: MonitorGraph, n: int, rec: MonitorRecord, succs: seq<int>)
    ensures var base := AddNode(shadow, n, rec);
            Step(shadow, n, rec, succs) == Graph(AddAllMissing(base.nodes, succs), base.attrs, base.edges + Fan(n, succs))
  {
    var base := AddNode(shadow, n, rec);
    AppendMissingIsAddAllMissing(base.nodes, succs);
    FanIsComprehension(n, succs);
  }

  lemma FanIsComprehension(n: int, succs: seq<int>)
    ensures Fan(n, succs) == set v | v in succs :: (n, v)
  {
    var edges := set v | v in succs :: (n, v);
    forall e ensures e in Fan(n, succs) <==> e in edges {
      var (x, y) := e;
      if x == n && y in succs {
        assert (n, y) in edges;
      }
    }
  }

  /** `process_action_result(result, dry_run)`, with `classify` standing for
      the classification of a result into an exception. */
  function ProcessActionResult(result: Dispatcher.ActionResult, dryRun: bool, classify: Dispatcher.ActionResult -> string): (reaction: Reaction)
    ensures reaction.Raise? <==> !dryRun
    ensures reaction.Raise? ==> reaction.exception == classify(result)
    ensures reaction.Warn? ==> reaction.message == classify(result)
  {
    if !dryRun then Raise(classify(result)) else Warn(classify(result))
  }
}
