/** Conversion of the three plan shapes into a dependency graph
    (up_esb/components/graph.py). Node 0 of a sequential or time-triggered
    graph is the "start" sentinel, the last node the "end" sentinel; every
    other node carries one step of the plan. */
module DependencyGraph {
  import opened Wrappers
  import opened Plans
  import PyDict
  import opened DiGraph

  /** The attribute record of a node. */
  datatype NodeData = NodeData(
    nodeName: string,
    action: string,
    parameters: PyDict.Dict<string, string>,
    preconditions: PyDict.Dict<IntervalKey, seq<Expr>>,
    postconditions: PyDict.Dict<IntervalKey, seq<Effect>>)

  type DepGraph = Graph<int, NodeData>

  datatype GraphError =
    | UnknownActionType        // ValueError of `_process_action`
    | PlanTypeNotSupported     // NotImplementedError of `plan_to_dependency_graph`
    | MissingDuration          // AttributeError: a step without a duration

  /** The three values `_process_action` returns. */
  datatype ActionData = ActionData(
    parameters: PyDict.Dict<string, string>,
    preconditions: PyDict.Dict<IntervalKey, seq<Expr>>,
    postconditions: PyDict.Dict<IntervalKey, seq<Effect>>)

  /** The record of a "start" or "end" sentinel node. */
  function Sentinel(name: string): (d: NodeData)
    ensures d.nodeName == name && d.action == name
    ensures d.parameters == [] && d.preconditions == [] && d.postconditions == []
  {
    NodeData(name, name, [], [], [])
  }

  function Ids(n: nat): (s: seq<int>)
    ensures |s| == n
    ensures forall i :: 0 <= i < n ==> s[i] == i
  {
    seq(n, i => i)
  }

  // ---------------------------------------------------------------------------
  // _process_action
  // ---------------------------------------------------------------------------

  /** What `_process_action` computes for an action instance: its parameter
      bindings (formal name to actual, filled along `zip`), and its conditions
      and effects, keyed by "start" for an instantaneous action and by their
      timing for a durative one. Any other kind of action is rejected. */
  function ActionRecord(a: ActionInstance): Result<ActionData, GraphError>
  {
    var parameters := PyDict.PutAll([], a.action.parameters, a.actualParameters);
    match a.action.kind
    case Instantaneous(pre, eff) => Ok(ActionData(parameters, [(StartKey, pre)], [(StartKey, eff)]))
    case Durative(conds, effs) => Ok(ActionData(parameters, conds, effs))
    case OtherKind => Err(UnknownActionType)
  }

  predicate Known(a: ActionInstance)
  {
    !a.action.kind.OtherKind?
  }

  /** The node record of a plan step named `name`. */
  function StepData(a: ActionInstance, name: string): (d: NodeData)
    requires Known(a)
    ensures d.nodeName == name && d.action == a.action.name
  {
    var rec := ActionRecord(a).value;
    NodeData(name, a.action.name, rec.parameters, rec.preconditions, rec.postconditions)
  }

  /** `_process_action`. */
  method ProcessAction(a: ActionInstance) returns (r: Result<ActionData, GraphError>)
    ensures r == ActionRecord(a)
    ensures r.Err? <==> !Known(a)
  {
    var formals := a.action.parameters;
    var actuals := a.actualParameters;
    var parameters: PyDict.Dict<string, string> := [];
    var i := 0;
    while i < |formals| && i < |actuals|
      invariant 0 <= i <= |formals| && i <= |actuals|
      invariant PyDict.PutAll(parameters, formals[i..], actuals[i..]) == PyDict.PutAll([], formals, actuals)
    {
      assert formals[i..][1..] == formals[i + 1..];
      assert actuals[i..][1..] == actuals[i + 1..];
      parameters := PyDict.Put(parameters, formals[i], actuals[i]);
      i := i + 1;
    }
    match a.action.kind
    case Instantaneous(pre, eff) =>
      r := Ok(ActionData(parameters, [(StartKey, pre)], [(StartKey, eff)]));
    case Durative(conds, effs) =>
      r := Ok(ActionData(parameters, conds, effs));
    case OtherKind =>
      r := Err(UnknownActionType);
  }

  /** With pairwise distinct formal names the bindings are exactly the zipped
      pairs, in the order of the formals. */
  lemma ActionParametersAreZip(a: ActionInstance)
    requires PyDict.Distinct(a.action.parameters)
    requires Known(a)
    ensures ActionRecord(a).value.parameters == PyDict.Zip(a.action.parameters, a.actualParameters)
  {
    PyDict.PutAllDistinctIsZip([], a.action.parameters, a.actualParameters);
  }

  predicate AllKnown(actions: seq<ActionInstance>)
  {
    forall i :: 0 <= i < |actions| ==> Known(actions[i])
  }

  // ---------------------------------------------------------------------------
  // Sequential plans
  // ---------------------------------------------------------------------------

  /** The edges of a chain start = 0 -> 1 -> ... -> n + 1 = end. */
  function ChainEdges(n: nat): (es: set<(int, int)>)
    ensures forall u, v :: (u, v) in es <==> 0 <= u <= n && v == u + 1
  {
    if n == 0 then {(0, 1)} else ChainEdges(n - 1) + {(n, n + 1)}
  }

  /** The graph `_sequential_plan_to_dependency_graph` has built once the
      first `i` steps are in: a chain from "start" to step `i`. */
  ghost predicate SequentialPrefix(actions: seq<ActionInstance>, g: DepGraph, i: nat)
    requires i <= |actions|
  {
    && (forall k :: 0 <= k < i ==> Known(actions[k]))
    && Valid(g)
    && g.nodes == Ids(i + 1)
    && (forall u, v :: (u, v) in g.edges <==> 0 <= u < i && v == u + 1)
    && (forall k :: k in g.attrs <==> 0 <= k < i + 1)
    && g.attrs[0] == Sentinel("start")
    && (forall k :: 0 <= k < i ==> g.attrs[k + 1] == StepData(actions[k], actions[k].rendered))
  }

  lemma SequentialPrefixStep(actions: seq<ActionInstance>, g: DepGraph, i: nat)
    requires i < |actions| && Known(actions[i])
    requires SequentialPrefix(actions, g, i)
    ensures SequentialPrefix(actions, AddEdge(AddNode(g, i + 1, StepData(actions[i], actions[i].rendered)), i, i + 1), i + 1)
  {
    var g1 := AddNode(g, i + 1, StepData(actions[i], actions[i].rendered));
    AddNodeValid(g, i + 1, StepData(actions[i], actions[i].rendered));
    assert g1.nodes == Ids(i + 2);
    var g2 := AddEdge(g1, i, i + 1);
    AddEdgeValid(g1, i, i + 1);
    assert g2.nodes == Ids(i + 2);
  }

  /** `_sequential_plan_to_dependency_graph`: a chain from "start" through the
      steps in plan order to "end". */
  method SequentialPlanToGraph(actions: seq<ActionInstance>) returns (r: Result<DepGraph, GraphError>)
    ensures r.Err? <==> !AllKnown(actions)
    ensures r.Err? ==> r.error == UnknownActionType
    ensures r.Ok? ==> Valid(r.value)
    ensures r.Ok? ==> r.value.nodes == Ids(|actions| + 2)
    ensures r.Ok? ==> forall u, v :: (u, v) in r.value.edges <==> 0 <= u <= |actions| && v == u + 1
    ensures r.Ok? ==> forall k :: k in r.value.attrs <==> 0 <= k < |actions| + 2
    ensures r.Ok? ==> r.value.attrs[0] == Sentinel("start") && r.value.attrs[|actions| + 1] == Sentinel("end")
    ensures r.Ok? ==> forall i :: 0 <= i < |actions| ==> r.value.attrs[i + 1] == StepData(actions[i], actions[i].rendered)
  {
    var g: DepGraph := AddNode(Empty(), 0, Sentinel("start"));
    var parent := 0;
    var i := 0;
    assert g.nodes == Ids(1);
    AddNodeValid(Empty(), 0, Sentinel("start"));
    while i < |actions|
      invariant 0 <= i <= |actions|
      invariant parent == i
      invariant SequentialPrefix(actions, g, i)
    {
      var rec := ProcessAction(actions[i]);
      if rec.Err? {
        assert !Known(actions[i]);
        return Err(rec.error);
      }
      var child := i + 1;
      SequentialPrefixStep(actions, g, i);
      g := AddNode(g, child, StepData(actions[i], actions[i].rendered));
      g := AddEdge(g, parent, child);
      parent := child;
      i := i + 1;
    }
    assert parent == |actions|;
    SequentialDone(actions, g);
    var child := parent + 1;
    g := AddNode(g, child, Sentinel("end"));
    g := AddEdge(g, parent, child);
    return Ok(g);
  }

  lemma SequentialDone(actions: seq<ActionInstance>, g: DepGraph)
    requires SequentialPrefix(actions, g, |actions|)
    ensures var r := AddEdge(AddNode(g, |actions| + 1, Sentinel("end")), |actions|, |actions| + 1);
      && Valid(r)
      && r.nodes == Ids(|actions| + 2)
      && (forall u, v :: (u, v) in r.edges <==> 0 <= u <= |actions| && v == u + 1)
      && (forall k :: k in r.attrs <==> 0 <= k < |actions| + 2)
      && r.attrs[0] == Sentinel("start") && r.attrs[|actions| + 1] == Sentinel("end")
      && (forall i :: 0 <= i < |actions| ==> r.attrs[i + 1] == StepData(actions[i], actions[i].rendered))
  {
    var n := |actions|;
    var g1 := AddNode(g, n + 1, Sentinel("end"));
    AddNodeValid(g, n + 1, Sentinel("end"));
    assert g1.nodes == Ids(n + 2);
    AddEdgeValid(g1, n, n + 1);
    AddExistingEdge(g1, n, n + 1);
  }

  /** A chain over n steps has one edge per step plus the edge into "end". */
  lemma ChainEdgeCount(n: nat, g: DepGraph)
    requires forall u, v :: (u, v) in g.edges <==> 0 <= u <= n && v == u + 1
    ensures |g.edges| == n + 1
  {
    forall e: (int, int) ensures e in g.edges <==> e in ChainEdges(n) {
      var (u, v) := e;
      assert (u, v) in g.edges <==> 0 <= u <= n && v == u + 1;
      assert (u, v) in ChainEdges(n) <==> 0 <= u <= n && v == u + 1;
    }
    assert g.edges == ChainEdges(n);
    ChainEdgesSize(n);
  }

  lemma {:induction false} ChainEdgesSize(n: nat)
    ensures |ChainEdges(n)| == n + 1
  {
    if n > 0 {
      ChainEdgesSize(n - 1);
      assert (n, n + 1) !in ChainEdges(n - 1);
    }
  }

  /** In a chain every node but "end" has exactly its successor in the plan,
      and every node but "start" exactly its predecessor. */
  lemma ChainNeighbours(n: nat, g: DepGraph, i: int)
    requires forall u, v :: (u, v) in g.edges <==> 0 <= u <= n && v == u + 1
    requires 0 <= i <= n + 1
    ensures Successors(g, i) == if i <= n then {i + 1} else {}
    ensures Predecessors(g, i) == if i >= 1 then {i - 1} else {}
  {
    var succ := if i <= n then {i + 1} else {};
    forall s ensures s in Successors(g, i) <==> s in succ {
      assert (i, s) in g.edges <==> (0 <= i <= n && s == i + 1);
    }
    var pred := if i >= 1 then {i - 1} else {};
    forall p ensures p in Predecessors(g, i) <==> p in pred {
      assert (p, i) in g.edges <==> (0 <= p <= n && i == p + 1);
    }
  }

  // ---------------------------------------------------------------------------
  // Time-triggered plans
  // ---------------------------------------------------------------------------

  /** A step can be converted when it has a duration and an action of a known
      kind. */
  predicate TimedStepOk(t: TimedAction)
  {
    t.duration.Some? && Known(t.instance)
  }

  /** What converting one step raises: its duration is converted to a float
      first (an AttributeError when it has none), then its action is
      processed. */
  function TimedStepError(t: TimedAction): Option<GraphError>
  {
    if t.duration.None? then Some(MissingDuration)
    else if !Known(t.instance) then Some(UnknownActionType)
    else None
  }

  predicate AllKnownTimed(ta: seq<TimedAction>)
  {
    forall i :: 0 <= i < |ta| ==> TimedStepOk(ta[i])
  }

  /** The error of the first step that cannot be converted, if any. */
  function FirstTimedError(ta: seq<TimedAction>): (e: Option<GraphError>)
    ensures e.None? <==> AllKnownTimed(ta)
  {
    if ta == [] then None
    else if TimedStepError(ta[0]).Some? then TimedStepError(ta[0])
    else
      assert forall k :: 0 <= k < |ta| - 1 ==> ta[1..][k] == ta[k + 1];
      FirstTimedError(ta[1..])
  }

  /** The name a step's node gets first: the step and its duration as a float. */
  function StepName(t: TimedAction): string
    requires t.duration.Some?
  {
    t.instance.rendered + "(" + t.duration.value.text + ")"
  }

  /** The name under which the first step of a time group is looked up, and
      which its node gets when the lookup fails. */
  function JoinName(t: TimedAction): (s: string)
    requires t.duration.Some?
    ensures |s| > 0 && s[|s| - 1] == ')'
  {
    t.instance.rendered + "(" + t.duration.value.text + "s)"
  }

  /** A join name ends with a parenthesis, so no sentinel carries it. */
  lemma JoinNameNotSentinel(t: TimedAction)
    requires t.duration.Some?
    ensures JoinName(t) != "start" && JoinName(t) != "end"
  {
    assert "start" == ['s', 't', 'a', 'r', 't'];
    assert "end" == ['e', 'n', 'd'];
  }

  /** A step named after a duration that does not end with "s" is never
      named like a join. */
  lemma StepNameNotJoinName(t: TimedAction, u: TimedAction)
    requires t.duration.Some? && u.duration.Some?
    requires |t.duration.value.text| > 0 && t.duration.value.text[|t.duration.value.text| - 1] != 's'
    ensures StepName(t) != JoinName(u)
  {
    var a := StepName(t);
    var b := JoinName(u);
    assert a[|a| - 2] == t.duration.value.text[|t.duration.value.text| - 1];
    assert b[|b| - 2] == 's';
  }

  /** The record of node `k` after the first loop of the conversion. */
  function TimedNodeData(ta: seq<TimedAction>, k: int): NodeData
    requires 0 <= k <= |ta| + 1
    requires 1 <= k <= |ta| ==> TimedStepOk(ta[k - 1])
  {
    if k == 0 then Sentinel("start")
    else if k == |ta| + 1 then Sentinel("end")
    else StepData(ta[k - 1].instance, StepName(ta[k - 1]))
  }

  /** The graph after the first loop: "start", one node per step, "end", and
      no edge yet. */
  function TimedNodes(ta: seq<TimedAction>): DepGraph
    requires AllKnownTimed(ta)
  {
    Graph(Ids(|ta| + 2), map k | 0 <= k < |ta| + 2 :: TimedNodeData(ta, k), {})
  }

  /** The graph the first loop has built once the first `i` steps are in. */
  ghost predicate TimedNodesPrefix(ta: seq<TimedAction>, g: DepGraph, i: nat)
    requires i <= |ta|
  {
    && (forall k :: 0 <= k < i ==> TimedStepOk(ta[k]))
    && g.nodes == Ids(i + 1)
    && g.edges == {}
    && (forall k :: k in g.attrs <==> 0 <= k < i + 1)
    && (forall k :: 0 <= k < i + 1 ==> g.attrs[k] == TimedNodeData(ta, k))
  }

  lemma TimedNodesPrefixStep(ta: seq<TimedAction>, g: DepGraph, i: nat)
    requires i < |ta| && TimedStepOk(ta[i])
    requires TimedNodesPrefix(ta, g, i)
    ensures TimedNodesPrefix(ta, AddNode(g, i + 1, StepData(ta[i].instance, StepName(ta[i]))), i + 1)
  {
    var g1 := AddNode(g, i + 1, StepData(ta[i].instance, StepName(ta[i])));
    assert g1.nodes == Ids(i + 2);
  }

  lemma TimedNodesPrefixDone(ta: seq<TimedAction>, g: DepGraph)
    requires TimedNodesPrefix(ta, g, |ta|)
    ensures AllKnownTimed(ta)
    ensures AddNode(g, |ta| + 1, Sentinel("end")) == TimedNodes(ta)
  {
    var g1 := AddNode(g, |ta| + 1, Sentinel("end"));
    assert g1.nodes == Ids(|ta| + 2);
    assert g1.attrs == TimedNodes(ta).attrs;
  }

  /** The first loop of `_time_triggered_plan_to_dependency_graph`: it fails
      at the first step without a duration or of an unknown kind. */
  method TimedNodesLoop(ta: seq<TimedAction>) returns (r: Result<DepGraph, GraphError>)
    ensures r.Err? <==> !AllKnownTimed(ta)
    ensures r.Err? ==> FirstTimedError(ta) == Some(r.error)
    ensures r.Ok? ==> r.value == TimedNodes(ta)
  {
    var g: DepGraph := AddNode(Empty(), 0, Sentinel("start"));
    var i := 0;
    assert g.nodes == Ids(1);
    assert ta[0..] == ta;
    while i < |ta|
      invariant 0 <= i <= |ta|
      invariant TimedNodesPrefix(ta, g, i)
      invariant FirstTimedError(ta[i..]) == FirstTimedError(ta)
    {
      var child := i + 1;
      assert ta[i..][0] == ta[i] && ta[i..][1..] == ta[i + 1..];
      if ta[i].duration.None? {
        assert !TimedStepOk(ta[i]);
        return Err(MissingDuration);
      }
      var rec := ProcessAction(ta[i].instance);
      if rec.Err? {
        assert !TimedStepOk(ta[i]);
        return Err(rec.error);
      }
      var data := NodeData(StepName(ta[i]), ta[i].instance.action.name,
                           rec.value.parameters, rec.value.preconditions, rec.value.postconditions);
      assert data == StepData(ta[i].instance, StepName(ta[i]));
      TimedNodesPrefixStep(ta, g, i);
      g := AddNode(g, child, data);
      i := i + 1;
    }
    TimedNodesPrefixDone(ta, g);
    g := AddNode(g, |ta| + 1, Sentinel("end"));
    return Ok(g);
  }

  /** `_get_node_id` as a function: the first node, in insertion order, whose
      record carries `name`. */
  function FirstNamed(g: DepGraph, name: string): (r: Option<int>)
    ensures r.Some? ==> r.value in g.nodes && r.value in g.attrs && g.attrs[r.value].nodeName == name
    ensures r.None? ==> forall n :: n in g.nodes && n in g.attrs ==> g.attrs[n].nodeName != name
  {
    FirstNamedIn(g.nodes, g.attrs, name)
  }

  function FirstNamedIn(ns: seq<int>, attrs: map<int, NodeData>, name: string): (r: Option<int>)
    ensures r.Some? ==> r.value in ns && r.value in attrs && attrs[r.value].nodeName == name
    ensures r.None? ==> forall n :: n in ns && n in attrs ==> attrs[n].nodeName != name
  {
    if ns == [] then None
    else if ns[0] in attrs && attrs[ns[0]].nodeName == name then Some(ns[0])
    else FirstNamedIn(ns[1..], attrs, name)
  }

  /** When no node carries `name` and node `x` is then given it, the lookup
      finds `x`. */
  lemma {:induction false} FirstNamedAfterRename(ns: seq<int>, attrs: map<int, NodeData>, name: string, x: int, d: NodeData)
    requires FirstNamedIn(ns, attrs, name) == None
    requires x in ns && d.nodeName == name
    ensures FirstNamedIn(ns, attrs[x := d], name) == Some(x)
  {
    if ns[0] != x {
      FirstNamedAfterRename(ns[1..], attrs, name, x, d);
    }
  }

  /** `_get_node_id`. */
  method GetNodeId(g: DepGraph, name: string) returns (r: Option<int>)
    ensures r == FirstNamed(g, name)
  {
    var i := 0;
    while i < |g.nodes|
      invariant 0 <= i <= |g.nodes|
      invariant FirstNamedIn(g.nodes[i..], g.attrs, name) == FirstNamed(g, name)
    {
      assert g.nodes[i..][1..] == g.nodes[i + 1..];
      var n := g.nodes[i];
      if n in g.attrs && g.attrs[n].nodeName == name {
        return Some(n);
      }
      i := i + 1;
    }
    return None;
  }

  /** The parent of step `i`: the last step of the previous time group, or
      "start" for the first group. */
  function ParentOf(ta: seq<TimedAction>, i: nat): (p: nat)
    requires i < |ta|
    ensures p <= i
  {
    if i == 0 then 0
    else if ta[i - 1].start != ta[i].start then i
    else ParentOf(ta, i - 1)
  }

  /** The steps waiting for a join when round `k` of the second loop
      begins: the nodes of the current time group seen so far, except the
      one that closes it. */
  function Pending(ta: seq<TimedAction>, k: nat): (ps: set<int>)
    requires k <= |ta|
    ensures forall p :: p in ps ==> 1 <= p <= k
  {
    if k == 0 then {}
    else
      var i := k - 1;
      if i + 1 < |ta| && ta[i].start != ta[i + 1].start then {}
      else if i + 1 < |ta| then Pending(ta, i) + {i + 1}
      else Pending(ta, i)
  }

  /** The edges from every node of `ps` to `t`. */
  function EdgesTo(ps: set<int>, t: int): (es: set<(int, int)>)
    ensures forall u, v :: (u, v) in es <==> u in ps && v == t
  {
    set p | p in ps :: (p, t)
  }

  /** The node found when the join before step `c` is looked up by name in
      `g`. Only the code as written (`asWritten`) looks it up; the fixed join
      always takes the node of step `c`. */
  function JoinTarget(ta: seq<TimedAction>, g: DepGraph, c: nat, asWritten: bool): Option<int>
    requires c < |ta| && AllKnownTimed(ta)
  {
    if asWritten then FirstNamed(g, JoinName(ta[c])) else None
  }

  /** The node the pending nodes are joined to: the node found by name, or
      node `c + 1` of step `c`. */
  function JoinNode(ta: seq<TimedAction>, g: DepGraph, c: nat, asWritten: bool): int
    requires c < |ta| && AllKnownTimed(ta)
  {
    match JoinTarget(ta, g, c, asWritten)
    case Some(t) => t
    case None => c + 1
  }

  /** `g` with node `c + 1` renamed to the join name of step `c`, unless the
      lookup found a node. */
  function Renamed(ta: seq<TimedAction>, g: DepGraph, c: nat, asWritten: bool): DepGraph
    requires c < |ta| && AllKnownTimed(ta)
  {
    if JoinTarget(ta, g, c, asWritten).Some? then g
    else g.(attrs := g.attrs[c + 1 := StepData(ta[c].instance, JoinName(ta[c]))])
  }

  /** Round `i` of the second loop: the edge from the parent and, when the
      next step starts at another time, the join of the pending nodes into
      `JoinNode`. As written (`asWritten`), the join target is first looked
      up by name among all nodes, and an earlier node with that name is
      joined instead of the node of the next step. */
  function TimedRound(ta: seq<TimedAction>, g: DepGraph, i: nat, asWritten: bool): DepGraph
    requires i < |ta| && AllKnownTimed(ta)
  {
    var e1 := g.edges + {(ParentOf(ta, i), i + 1)};
    if i + 1 < |ta| && ta[i].start != ta[i + 1].start && Pending(ta, i) != {} then
      Renamed(ta, g, i + 1, asWritten).(edges := e1 + EdgesTo(Pending(ta, i), JoinNode(ta, g, i + 1, asWritten)))
    else
      g.(edges := e1)
  }

  /** The graph after the first `k` rounds of the second loop. */
  function TimedRun(ta: seq<TimedAction>, k: nat, asWritten: bool): DepGraph
    requires k <= |ta| && AllKnownTimed(ta)
  {
    if k == 0 then TimedNodes(ta)
    else TimedRound(ta, TimedRun(ta, k - 1, asWritten), k - 1, asWritten)
  }

  /** The dependency graph of a time-triggered plan: the rounds, then the
      edge from the last step to "end". */
  function TimeTriggeredGraph(ta: seq<TimedAction>, asWritten: bool): DepGraph
    requires AllKnownTimed(ta)
  {
    var g := TimedRun(ta, |ta|, asWritten);
    g.(edges := g.edges + {(|ta|, |ta| + 1)})
  }

  /** `_time_triggered_plan_to_dependency_graph`. With `asWritten` the join
      target is looked up by name as the code does; without it the join is
      fixed to the node of the first step of the next group. */
  method TimeTriggeredPlanToGraph(ta: seq<TimedAction>, asWritten: bool) returns (r: Result<DepGraph, GraphError>)
    ensures r.Err? <==> !AllKnownTimed(ta)
    ensures r.Err? ==> FirstTimedError(ta) == Some(r.error)
    ensures r.Ok? ==> r.value == TimeTriggeredGraph(ta, asWritten)
  {
    var nodes := TimedNodesLoop(ta);
    if nodes.Err? {
      return Err(nodes.error);
    }
    var g := nodes.value;
    var parent := 0;
    var nextParents: set<int> := {};
    var i := 0;
    while i < |ta|
      invariant 0 <= i <= |ta|
      invariant g == TimedRun(ta, i, asWritten)
      invariant i < |ta| ==> parent == ParentOf(ta, i)
      invariant nextParents == Pending(ta, i)
    {
      TimedRunNodes(ta, i, asWritten);
      g, parent, nextParents := TimedRoundStep(ta, g, parent, nextParents, i, asWritten);
      i := i + 1;
    }
    TimedRunNodes(ta, |ta|, asWritten);
    AddExistingEdge(g, |ta|, |ta| + 1);
    g := AddEdge(g, |ta|, |ta| + 1);
    return Ok(g);
  }

  /** One round of the second loop of the conversion. */
  method TimedRoundStep(ta: seq<TimedAction>, g: DepGraph, parent: int, nextParents: set<int>, i: nat, asWritten: bool)
    returns (g': DepGraph, parent': int, nextParents': set<int>)
    requires i < |ta| && AllKnownTimed(ta)
    requires g.nodes == Ids(|ta| + 2)
    requires parent == ParentOf(ta, i) && nextParents == Pending(ta, i)
    ensures g' == TimedRound(ta, g, i, asWritten)
    ensures i + 1 < |ta| ==> parent' == ParentOf(ta, i + 1)
    ensures nextParents' == Pending(ta, i + 1)
  {
    RoundBookkeeping(ta, i);
    var child := i + 1;
    AddExistingEdge(g, parent, child);
    g' := AddEdge(g, parent, child);
    parent' := parent;
    nextParents' := nextParents;
    if i + 1 < |ta| {
      var nextStart := ta[i + 1].start;
      if ta[i].start != nextStart {
        parent' := child;
        JoinIgnoresEdges(ta, g, i + 1, asWritten, g'.edges);
        g' := JoinLoop(ta, g', nextParents, i + 1, asWritten);
        nextParents' := {};
      } else {
        nextParents' := nextParents + {child};
      }
    }
  }

  /** The join looks at node names only, never at edges. */
  lemma JoinIgnoresEdges(ta: seq<TimedAction>, g: DepGraph, c: nat, asWritten: bool, es: set<(int, int)>)
    requires c < |ta| && AllKnownTimed(ta)
    ensures JoinNode(ta, g.(edges := es), c, asWritten) == JoinNode(ta, g, c, asWritten)
    ensures Renamed(ta, g.(edges := es), c, asWritten) == Renamed(ta, g, c, asWritten).(edges := es)
  {
    assert JoinTarget(ta, g.(edges := es), c, asWritten) == JoinTarget(ta, g, c, asWritten);
  }

  /** How the parent and the pending nodes move on after round `i`. */
  lemma RoundBookkeeping(ta: seq<TimedAction>, i: nat)
    requires i < |ta|
    ensures i + 1 < |ta| ==>
              ParentOf(ta, i + 1) == if ta[i].start != ta[i + 1].start then i + 1 else ParentOf(ta, i)
    ensures Pending(ta, i + 1) ==
              if i + 1 < |ta| && ta[i].start != ta[i + 1].start then {}
              else if i + 1 < |ta| then Pending(ta, i) + {i + 1}
              else Pending(ta, i)
  {
  }

  /** `add_edge` between two nodes already present only adds the edge. */
  lemma AddExistingEdge(g: DepGraph, u: int, v: int)
    requires g.nodes == Ids(|g.nodes|)
    requires 0 <= u < |g.nodes| && 0 <= v < |g.nodes|
    ensures AddEdge(g, u, v) == g.(edges := g.edges + {(u, v)})
  {
    assert g.nodes[u] == u && g.nodes[v] == v;
  }

  /** Some element of a non-empty set: Python's set iteration order is not
      modelled, any element may come first. */
  method PickOne<T>(s: set<T>) returns (x: T)
    requires s != {}
    ensures x in s
  {
    if forall y :: y !in s {
      assert false;
    }
    x :| x in s;
  }

  /** The lookup of the inner loop, made before each pending node's edge,
      once the records are those of `g0` or of `Renamed`: as written it finds
      `JoinNode`, or finds nothing and `add_node` then gives the renamed
      records; fixed, `add_node` always gives them. */
  lemma JoinLookup(ta: seq<TimedAction>, g0: DepGraph, g: DepGraph, c: nat, asWritten: bool)
    requires 0 < c < |ta| && AllKnownTimed(ta)
    requires g0.nodes == Ids(|ta| + 2) && g.nodes == g0.nodes
    requires g.attrs == g0.attrs || g.attrs == Renamed(ta, g0, c, asWritten).attrs
    ensures 0 <= JoinNode(ta, g0, c, asWritten) < |ta| + 2
    ensures var found := if asWritten then FirstNamed(g, JoinName(ta[c])) else None;
            && (found.Some? ==> found.value == JoinNode(ta, g0, c, asWritten) && g.attrs == Renamed(ta, g0, c, asWritten).attrs)
            && (found.None? ==> JoinNode(ta, g0, c, asWritten) == c + 1
                                && g.attrs[c + 1 := StepData(ta[c].instance, JoinName(ta[c]))] == Renamed(ta, g0, c, asWritten).attrs)
  {
    var name := JoinName(ta[c]);
    var d := StepData(ta[c].instance, name);
    assert g0.nodes[c + 1] == c + 1;
    var t0 := JoinTarget(ta, g0, c, asWritten);
    if t0.Some? {
      var j :| 0 <= j < |g0.nodes| && g0.nodes[j] == t0.value;
    }
    if g.attrs != g0.attrs && asWritten && t0.None? {
      FirstNamedAfterRename(g0.nodes, g0.attrs, name, c + 1, d);
    }
  }

  /** One turn of the inner loop, once the pending nodes in `done` are
      joined: the lookup (as written only), the renaming of node `c + 1`
      when nothing is found, and the edge from `p` to the node taken. */
  lemma JoinStep(ta: seq<TimedAction>, g0: DepGraph, g: DepGraph, done: set<int>, p: int, c: nat, asWritten: bool,
                 found: Option<int>, g1: DepGraph)
    requires 0 < c < |ta| && AllKnownTimed(ta)
    requires g0.nodes == Ids(|ta| + 2) && 1 <= p <= |ta|
    requires done == {} ==> g == g0
    requires done != {} ==> g == Renamed(ta, g0, c, asWritten).(edges := g0.edges + EdgesTo(done, JoinNode(ta, g0, c, asWritten)))
    requires found == if asWritten then FirstNamed(g, JoinName(ta[c])) else None
    requires g1 == if found.None? then AddNode(g, c + 1, StepData(ta[c].instance, JoinName(ta[c]))) else g
    ensures g1.nodes == g0.nodes
    ensures AddEdge(g1, p, if found.None? then c + 1 else found.value)
         == Renamed(ta, g0, c, asWritten).(edges := g0.edges + EdgesTo(done + {p}, JoinNode(ta, g0, c, asWritten)))
  {
    var named := Renamed(ta, g0, c, asWritten);
    var target := JoinNode(ta, g0, c, asWritten);
    JoinLookup(ta, g0, g, c, asWritten);
    assert g.nodes[c + 1] == c + 1;
    var t := if found.None? then c + 1 else found.value;
    assert t == target;
    assert g1.nodes == g0.nodes && g1.attrs == named.attrs;
    assert g1.edges == g0.edges + EdgesTo(done, target);
    assert EdgesTo(done + {p}, target) == EdgesTo(done, target) + {(p, target)};
    AddExistingEdge(g1, p, t);
  }

  /** The inner loop of the conversion, over the pending nodes in whatever
      order the set yields them: for each, the join target is looked up by
      name (as written only); when nothing is found, the node of step `c`
      is renamed to `JoinName` and taken; then the pending node is linked to
      the target. */
  method JoinLoop(ta: seq<TimedAction>, g0: DepGraph, pending: set<int>, c: nat, asWritten: bool) returns (g: DepGraph)
    requires 0 < c < |ta| && AllKnownTimed(ta)
    requires g0.nodes == Ids(|ta| + 2)
    requires forall p :: p in pending ==> 1 <= p <= |ta|
    ensures pending == {} ==> g == g0
    ensures pending != {} ==>
              g == Renamed(ta, g0, c, asWritten).(edges := g0.edges + EdgesTo(pending, JoinNode(ta, g0, c, asWritten)))
  {
    g := g0;
    var remaining := pending;
    while remaining != {}
      invariant remaining <= pending
      invariant g.nodes == g0.nodes
      invariant pending - remaining == {} ==> g == g0
      invariant pending - remaining != {} ==>
                  g == Renamed(ta, g0, c, asWritten).(edges := g0.edges + EdgesTo(pending - remaining, JoinNode(ta, g0, c, asWritten)))
      decreases remaining
    {
      var p := PickOne(remaining);
      ghost var before := g;
      var name := JoinName(ta[c]);
      var rec := ProcessAction(ta[c].instance);
      var found: Option<int> := None;
      if asWritten {
        found := GetNodeId(g, name);
      }
      var id := c + 1;
      if found.None? {
        var data := NodeData(name, ta[c].instance.action.name,
                             rec.value.parameters, rec.value.preconditions, rec.value.postconditions);
        assert data == StepData(ta[c].instance, name);
        g := AddNode(g, c + 1, data);
      } else {
        id := found.value;
      }
      JoinStep(ta, g0, before, pending - remaining, p, c, asWritten, found, g);
      g := AddEdge(g, p, id);
      assert pending - (remaining - {p}) == (pending - remaining) + {p};
      remaining := remaining - {p};
    }
    assert pending - remaining == pending;
  }

  /** The node list and the domain of the records never change after the
      first loop. */
  lemma {:induction false} TimedRunNodes(ta: seq<TimedAction>, k: nat, asWritten: bool)
    requires k <= |ta| && AllKnownTimed(ta)
    ensures TimedRun(ta, k, asWritten).nodes == Ids(|ta| + 2)
    ensures forall n :: n in TimedRun(ta, k, asWritten).attrs <==> 0 <= n < |ta| + 2
  {
    if k > 0 {
      TimedRunNodes(ta, k - 1, asWritten);
    }
  }

  /** The node round `i` joins its pending nodes to. */
  function RoundTarget(ta: seq<TimedAction>, i: nat, asWritten: bool): (t: int)
    requires i + 1 < |ta| && AllKnownTimed(ta)
    ensures !asWritten ==> t == i + 2
  {
    JoinNode(ta, TimedRun(ta, i, asWritten), i + 1, asWritten)
  }

  /** Edge `(u, v)` is added by round `i`. */
  predicate RoundEdge(ta: seq<TimedAction>, i: nat, u: int, v: int, asWritten: bool)
    requires i < |ta| && AllKnownTimed(ta)
  {
    || (u == ParentOf(ta, i) && v == i + 1)
    || (i + 1 < |ta| && ta[i].start != ta[i + 1].start && u in Pending(ta, i) && v == RoundTarget(ta, i, asWritten))
  }

  /** Edge `(u, v)` is added by one of the first `k` rounds. */
  predicate RunEdge(ta: seq<TimedAction>, k: nat, u: int, v: int, asWritten: bool)
    requires k <= |ta| && AllKnownTimed(ta)
  {
    exists i :: 0 <= i < k && RoundEdge(ta, i, u, v, asWritten)
  }

  /** Round `i` adds exactly its own edges. */
  lemma TimedRoundEdge(ta: seq<TimedAction>, i: nat, u: int, v: int, asWritten: bool)
    requires i < |ta| && AllKnownTimed(ta)
    ensures (u, v) in TimedRun(ta, i + 1, asWritten).edges
            <==> (u, v) in TimedRun(ta, i, asWritten).edges || RoundEdge(ta, i, u, v, asWritten)
  {
  }

  /** The edges after `k` rounds are exactly those the rounds add: each
      step's edge from its parent, and the edges from the pending nodes of
      each closing group to the round's join target. */
  lemma {:induction false} TimedRunEdges(ta: seq<TimedAction>, k: nat, asWritten: bool)
    requires k <= |ta| && AllKnownTimed(ta)
    ensures forall u, v :: (u, v) in TimedRun(ta, k, asWritten).edges <==> RunEdge(ta, k, u, v, asWritten)
  {
    if k > 0 {
      TimedRunEdges(ta, k - 1, asWritten);
      forall u, v ensures (u, v) in TimedRun(ta, k, asWritten).edges <==> RunEdge(ta, k, u, v, asWritten) {
        TimedRoundEdge(ta, k - 1, u, v, asWritten);
        if RunEdge(ta, k, u, v, asWritten) {
          var i :| 0 <= i < k && RoundEdge(ta, i, u, v, asWritten);
          if i < k - 1 {
            assert RunEdge(ta, k - 1, u, v, asWritten);
          }
        }
        if (u, v) in TimedRun(ta, k, asWritten).edges && !RunEdge(ta, k - 1, u, v, asWritten) {
          assert RoundEdge(ta, k - 1, u, v, asWritten);
        }
      }
    }
  }

  /** With the fixed join every edge goes forward and none reaches "end"
      before the last one is added. */
  lemma {:induction false} TimedRunForward(ta: seq<TimedAction>, k: nat)
    requires k <= |ta| && AllKnownTimed(ta)
    ensures forall u, v :: (u, v) in TimedRun(ta, k, false).edges ==> 0 <= u < v <= |ta|
  {
    if k > 0 {
      TimedRunForward(ta, k - 1);
    }
  }

  /** A step whose parent is not "start" follows a change of start time. */
  lemma {:induction false} ParentOfFollowsChange(ta: seq<TimedAction>, i: nat)
    requires i < |ta|
    ensures ParentOf(ta, i) > 0 ==> ta[ParentOf(ta, i) - 1].start != ta[ParentOf(ta, i)].start
  {
    if i > 0 && ta[i - 1].start == ta[i].start {
      ParentOfFollowsChange(ta, i - 1);
    }
  }

  /** A node is pending when its step and all later steps up to round `k`
      share one start time. */
  lemma {:induction false} PendingCollectsGroup(ta: seq<TimedAction>, k: nat, j: nat)
    requires j < k < |ta|
    requires forall m :: j <= m < k ==> ta[m].start == ta[m + 1].start
    ensures j + 1 in Pending(ta, k)
  {
    if j < k - 1 {
      PendingCollectsGroup(ta, k - 1, j);
    }
  }

  /** The shape of the dependency graph of a time-triggered plan with the
      fixed join: "start", one node per step in plan order, "end"; every
      edge goes from an earlier to a later node, so the graph is acyclic;
      "start" has no predecessor and the last step is the only predecessor
      of "end". */
  lemma TimeTriggeredShape(ta: seq<TimedAction>)
    requires AllKnownTimed(ta)
    ensures Valid(TimeTriggeredGraph(ta, false))
    ensures TimeTriggeredGraph(ta, false).nodes == Ids(|ta| + 2)
    ensures forall u, v :: (u, v) in TimeTriggeredGraph(ta, false).edges ==> 0 <= u < v <= |ta| + 1
    ensures Predecessors(TimeTriggeredGraph(ta, false), 0) == {}
    ensures Predecessors(TimeTriggeredGraph(ta, false), |ta| + 1) == {|ta|}
  {
    var g := TimeTriggeredGraph(ta, false);
    TimedRunNodes(ta, |ta|, false);
    TimedRunForward(ta, |ta|);
    assert forall n :: n in g.nodes <==> 0 <= n < |ta| + 2 by {
      forall n ensures n in g.nodes <==> 0 <= n < |ta| + 2 {
        if 0 <= n < |ta| + 2 {
          assert g.nodes[n] == n;
        }
      }
    }
    assert (|ta|, |ta| + 1) in g.edges;
    forall e | e in g.edges ensures e.0 in g.nodes && e.1 in g.nodes {
      if e != (|ta|, |ta| + 1) {
        assert (e.0, e.1) in TimedRun(ta, |ta|, false).edges;
      }
      assert 0 <= e.0 < |ta| + 2 && 0 <= e.1 < |ta| + 2;
      assert g.nodes[e.0] == e.0 && g.nodes[e.1] == e.1;
    }
    var intoEnd := Predecessors(g, |ta| + 1);
    forall p | p in intoEnd ensures p == |ta| {
      assert (p, |ta| + 1) in g.edges;
    }
    var intoStart := Predecessors(g, 0);
    forall p | p in intoStart ensures false {
    }
  }

  /** Every step is linked from its parent: the last step of the previous
      time group, or "start". The join does not change this edge. */
  lemma TimeTriggeredParentEdge(ta: seq<TimedAction>, i: nat, asWritten: bool)
    requires AllKnownTimed(ta) && i < |ta|
    ensures (ParentOf(ta, i), i + 1) in TimeTriggeredGraph(ta, asWritten).edges
  {
    TimedRunEdges(ta, |ta|, asWritten);
    assert RoundEdge(ta, i, ParentOf(ta, i), i + 1, asWritten);
  }

  /** Every step of a time group is linked to the join of the next group:
      the last one to the next step, its child, the others to the round's
      join target, which with the fixed join is that same next step. */
  lemma TimeTriggeredGroupPrecedesNext(ta: seq<TimedAction>, i: nat, c: nat, asWritten: bool)
    requires AllKnownTimed(ta)
    requires i <= c && c + 1 < |ta|
    requires ta[c].start != ta[c + 1].start
    requires forall m :: i <= m < c ==> ta[m].start == ta[m + 1].start
    ensures (i + 1, if i == c then c + 2 else RoundTarget(ta, c, asWritten)) in TimeTriggeredGraph(ta, asWritten).edges
    ensures !asWritten ==> (i + 1, c + 2) in TimeTriggeredGraph(ta, asWritten).edges
  {
    TimedRunEdges(ta, |ta|, asWritten);
    if i == c {
      assert ParentOf(ta, c + 1) == c + 1;
      assert RoundEdge(ta, c + 1, i + 1, c + 2, asWritten);
    } else {
      PendingCollectsGroup(ta, c, i);
      assert RoundEdge(ta, c, i + 1, RoundTarget(ta, c, asWritten), asWritten);
    }
  }

  /** The steps of the last time group other than the last step have no
      successor at all: only the last step is linked to "end". */
  lemma TimeTriggeredLastGroupSinks(ta: seq<TimedAction>, j: nat, asWritten: bool)
    requires AllKnownTimed(ta)
    requires j + 1 < |ta|
    requires forall m :: j <= m < |ta| - 1 ==> ta[m].start == ta[m + 1].start
    ensures Successors(TimeTriggeredGraph(ta, asWritten), j + 1) == {}
  {
    TimedRunEdges(ta, |ta|, asWritten);
    var g := TimeTriggeredGraph(ta, asWritten);
    var after := Successors(g, j + 1);
    forall v | v in after ensures false {
      assert (j + 1, v) in g.edges;
      if true {
        var i :| 0 <= i < |ta| && RoundEdge(ta, i, j + 1, v, asWritten);
        if j + 1 == ParentOf(ta, i) && v == i + 1 {
          ParentOfFollowsChange(ta, i);
        }
      }
    }
  }

  /** As written, the pending nodes of a closing group are joined to a node
      carrying the join name of the next group's first step: the first node
      already carrying it, or else that step's own node, renamed. */
  lemma AsWrittenJoinNamed(ta: seq<TimedAction>, i: nat)
    requires AllKnownTimed(ta) && i + 1 < |ta|
    requires ta[i].start != ta[i + 1].start && Pending(ta, i) != {}
    ensures var g := TimedRun(ta, i + 1, true);
            && RoundTarget(ta, i, true) in g.attrs
            && g.attrs[RoundTarget(ta, i, true)].nodeName == JoinName(ta[i + 1])
            && (FirstNamed(TimedRun(ta, i, true), JoinName(ta[i + 1])).None? ==> RoundTarget(ta, i, true) == i + 2)
            && forall p :: p in Pending(ta, i) ==> (p, RoundTarget(ta, i, true)) in g.edges
  {
    TimedRunNodes(ta, i, true);
  }

  /** The records of a time-triggered graph after any number of rounds:
      the sentinels, and for each step either the record the first loop gave
      it or the one renamed for a join. */
  ghost predicate TimedRecords(ta: seq<TimedAction>, attrs: map<int, NodeData>)
    requires AllKnownTimed(ta)
  {
    && (forall n :: n in attrs <==> 0 <= n < |ta| + 2)
    && attrs[0] == Sentinel("start") && attrs[|ta| + 1] == Sentinel("end")
    && forall n :: 1 <= n <= |ta| ==>
         || attrs[n] == StepData(ta[n - 1].instance, StepName(ta[n - 1]))
         || attrs[n] == StepData(ta[n - 1].instance, JoinName(ta[n - 1]))
  }

  /** The records after `k` rounds are of that form. */
  lemma {:induction false} TimedRunRecords(ta: seq<TimedAction>, k: nat, asWritten: bool)
    requires k <= |ta| && AllKnownTimed(ta)
    ensures TimedRecords(ta, TimedRun(ta, k, asWritten).attrs)
  {
    if k == 0 {
      assert TimedRun(ta, 0, asWritten).attrs == TimedNodes(ta).attrs;
    } else {
      TimedRunRecords(ta, k - 1, asWritten);
      TimedRoundRecords(ta, TimedRun(ta, k - 1, asWritten), k - 1, asWritten);
    }
  }

  /** A round changes at most one record, the next step's, renamed for the
      join, so it keeps the records of that form. */
  lemma TimedRoundRecords(ta: seq<TimedAction>, g: DepGraph, i: nat, asWritten: bool)
    requires i < |ta| && AllKnownTimed(ta) && TimedRecords(ta, g.attrs)
    ensures TimedRecords(ta, TimedRound(ta, g, i, asWritten).attrs)
  {
    var a := TimedRound(ta, g, i, asWritten).attrs;
    if a != g.attrs {
      assert a == g.attrs[i + 2 := StepData(ta[i + 1].instance, JoinName(ta[i + 1]))];
    }
  }

  /** Join names tell the steps apart: no two steps share one, and no step
      is first named with one. */
  predicate DistinctJoinNames(ta: seq<TimedAction>)
    requires AllKnownTimed(ta)
  {
    && (forall j, k :: 0 <= j < k < |ta| ==> JoinName(ta[j]) != JoinName(ta[k]))
    && (forall j, k :: 0 <= j < |ta| && 0 <= k < |ta| ==> StepName(ta[j]) != JoinName(ta[k]))
  }

  /** With distinct join names, a node carrying the join name of step
      `i + 1` before round `i` can only be that step's node, already
      renamed. */
  lemma JoinLookupDistinct(ta: seq<TimedAction>, i: nat)
    requires i + 1 < |ta| && AllKnownTimed(ta) && DistinctJoinNames(ta)
    ensures var g := TimedRun(ta, i, true);
            forall n :: n in g.attrs && g.attrs[n].nodeName == JoinName(ta[i + 1]) ==>
              n == i + 2 && g.attrs[n] == StepData(ta[i + 1].instance, JoinName(ta[i + 1]))
  {
    TimedRunRecords(ta, i, true);
    RecordsJoinNamed(ta, TimedRun(ta, i, true).attrs, i + 1);
  }

  /** In records of that form, with distinct join names, only the node of
      step `c` can carry its join name, and only once renamed. */
  lemma RecordsJoinNamed(ta: seq<TimedAction>, attrs: map<int, NodeData>, c: nat)
    requires c < |ta| && AllKnownTimed(ta) && DistinctJoinNames(ta) && TimedRecords(ta, attrs)
    ensures forall n :: n in attrs && attrs[n].nodeName == JoinName(ta[c]) ==>
              n == c + 1 && attrs[n] == StepData(ta[c].instance, JoinName(ta[c]))
  {
    JoinNameNotSentinel(ta[c]);
    forall n | n in attrs && attrs[n].nodeName == JoinName(ta[c])
      ensures n == c + 1 && attrs[n] == StepData(ta[c].instance, JoinName(ta[c]))
    {
      assert 1 <= n <= |ta|;
      assert attrs[n] == StepData(ta[n - 1].instance, JoinName(ta[n - 1]));
    }
  }

  /** With distinct join names the lookup by name never finds another node,
      and every round as written builds what the fixed round builds. */
  lemma {:induction false} TimedRunAgrees(ta: seq<TimedAction>, k: nat)
    requires k <= |ta| && AllKnownTimed(ta) && DistinctJoinNames(ta)
    ensures TimedRun(ta, k, true) == TimedRun(ta, k, false)
  {
    if k > 0 {
      var i := k - 1;
      TimedRunAgrees(ta, i);
      var g := TimedRun(ta, i, true);
      if i + 1 < |ta| && ta[i].start != ta[i + 1].start && Pending(ta, i) != {} {
        JoinLookupDistinct(ta, i);
        var found := FirstNamed(g, JoinName(ta[i + 1]));
        if found.Some? {
          var d := StepData(ta[i + 1].instance, JoinName(ta[i + 1]));
          assert g.attrs[i + 2 := d] == g.attrs;
        }
      }
    }
  }

  /** When join names tell the steps apart, the conversion as written and
      the fixed one build the same graph, so the shape proved for the fixed
      join holds for the code as written. */
  lemma AsWrittenAgreesWhenNamesDistinct(ta: seq<TimedAction>)
    requires AllKnownTimed(ta) && DistinctJoinNames(ta)
    ensures TimeTriggeredGraph(ta, true) == TimeTriggeredGraph(ta, false)
  {
    TimedRunAgrees(ta, |ta|);
  }

  /** A step named `name` that takes no parameter and has no condition or
      effect; `uid` tells apart two steps that print alike. */
  function SimpleStep(uid: nat, name: string, start: real): (t: TimedAction)
    ensures TimedStepOk(t) && t.instance.rendered == name && t.duration == Some(Duration(1.0, "1.0"))
  {
    TimedAction(start, ActionInstance(uid, Action(name, [], Instantaneous([], [])), [], name), Some(Duration(1.0, "1.0")))
  }

  /** Steps `a` and `b` at time 0, `c` and `d` at time 1, then `c` once more
      at time 2. */
  function RepeatedJoinPlan(): (ta: seq<TimedAction>)
    ensures |ta| == 5 && AllKnownTimed(ta)
    ensures forall k :: 0 <= k < 5 ==> ta[k].duration == Some(Duration(1.0, "1.0"))
  {
    [SimpleStep(0, "a", 0.0), SimpleStep(1, "b", 0.0), SimpleStep(2, "c", 1.0),
     SimpleStep(3, "d", 1.0), SimpleStep(4, "c", 2.0)]
  }

  /** Rounds only ever add edges. */
  lemma {:induction false} TimedRunEdgesGrow(ta: seq<TimedAction>, j: nat, k: nat, asWritten: bool)
    requires j <= k <= |ta| && AllKnownTimed(ta)
    ensures TimedRun(ta, j, asWritten).edges <= TimedRun(ta, k, asWritten).edges
    decreases k
  {
    if j < k {
      TimedRunEdgesGrow(ta, j, k - 1, asWritten);
    }
  }

  /** The node records once the group at time 1 has begun: the node of
      the first `c` has been renamed for the join, the others are as the
      first loop made them. */
  lemma RepeatedJoinRecords()
    ensures TimedRun(RepeatedJoinPlan(), 3, true).attrs
         == (map k | 0 <= k < 7 :: TimedNodeData(RepeatedJoinPlan(), k))[3 := StepData(RepeatedJoinPlan()[2].instance, "c(1.0s)")]
  {
    var ta := RepeatedJoinPlan();
    var name := "c(1.0s)";
    assert JoinName(ta[2]) == name;
    var g1 := TimedRun(ta, 1, true);
    assert g1.attrs == TimedRun(ta, 0, true).attrs;
    assert Pending(ta, 1) == {1};
    RepeatedJoinFirstNames();
    forall n | n in g1.attrs ensures g1.attrs[n].nodeName != name {
      assert 0 <= n < 7;
      assert g1.attrs[n] == TimedNodeData(ta, n);
    }
    assert JoinTarget(ta, g1, 2, true) == None;
  }

  /** When the group at time 1 closes, the lookup of the join name of the
      second `c` finds the renamed node of the first `c`. */
  lemma RepeatedJoinLookup()
    ensures JoinTarget(RepeatedJoinPlan(), TimedRun(RepeatedJoinPlan(), 3, true), 4, true) == Some(3)
  {
    var ta := RepeatedJoinPlan();
    assert JoinName(ta[4]) == "c(1.0s)";
    RepeatedJoinNames();
  }

  /** Node 3 is the only node named after the join of the first `c`. */
  lemma RepeatedJoinNames()
    ensures 3 in TimedRun(RepeatedJoinPlan(), 3, true).nodes
    ensures 3 in TimedRun(RepeatedJoinPlan(), 3, true).attrs
    ensures TimedRun(RepeatedJoinPlan(), 3, true).attrs[3].nodeName == "c(1.0s)"
    ensures forall n :: (n in TimedRun(RepeatedJoinPlan(), 3, true).attrs
                         && TimedRun(RepeatedJoinPlan(), 3, true).attrs[n].nodeName == "c(1.0s)") ==> n == 3
  {
    var ta := RepeatedJoinPlan();
    var name := "c(1.0s)";
    TimedRunNodes(ta, 3, true);
    RepeatedJoinRecords();
    var g3 := TimedRun(ta, 3, true);
    RepeatedJoinFirstNames();
    forall n | n in g3.attrs && g3.attrs[n].nodeName == name ensures n == 3 {
      assert 0 <= n < 7;
    }
    assert g3.nodes[3] == 3;
  }

  /** No node is first named like the join of `c`. */
  lemma RepeatedJoinFirstNames()
    ensures forall n :: 0 <= n < 7 ==> TimedNodeData(RepeatedJoinPlan(), n).nodeName != "c(1.0s)"
  {
    var ta := RepeatedJoinPlan();
    assert JoinName(ta[2]) == "c(1.0s)";
    assert "1.0"[2] == '0';
    JoinNameNotSentinel(ta[2]);
    forall n | 1 <= n <= 5 ensures TimedNodeData(ta, n).nodeName != JoinName(ta[2]) {
      StepNameNotJoinName(ta[n - 1], ta[2]);
    }
  }

  /** ... so the pending node 3 is joined to itself. */
  lemma RepeatedJoinSelfLoop()
    ensures (3, 3) in TimedRun(RepeatedJoinPlan(), 4, true).edges
  {
    var ta := RepeatedJoinPlan();
    RepeatedJoinLookup();
    assert Pending(ta, 3) == {3};
    assert TimedRun(ta, 4, true) == TimedRound(ta, TimedRun(ta, 3, true), 3, true);
  }

  /** As written, the join of the second `c` is looked up by name and finds
      the node of the first `c`, renamed when the group at time 1 began: the
      pending node 3 is joined to itself, a cycle. With the join target
      fixed, node 3 is joined to node 5 of the second `c` and every edge goes
      forward. */
  lemma TimeTriggeredRepeatedJoin()
    ensures (3, 3) in TimeTriggeredGraph(RepeatedJoinPlan(), true).edges
    ensures (3, 5) in TimeTriggeredGraph(RepeatedJoinPlan(), false).edges
    ensures (3, 3) !in TimeTriggeredGraph(RepeatedJoinPlan(), false).edges
  {
    var ta := RepeatedJoinPlan();
    RepeatedJoinSelfLoop();
    TimedRunEdgesGrow(ta, 4, 5, true);
    TimeTriggeredGroupPrecedesNext(ta, 2, 3, false);
    TimeTriggeredShape(ta);
  }
}
