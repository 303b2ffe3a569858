/** The older plan-to-graph conversion (up_bridge/components/graph.py). Nodes
    are keyed by text: "start", "end", and for each step its action name
    followed by its actual parameters as Python prints a tuple (and, in a
    time-triggered plan, its duration), so steps that print alike share one
    node. Both conversions are stated over the list of steps they add, each
    a node text with its record. The lists are built by `SequentialSteps`
    and `ZeroStartSteps` for any way `key` of printing a step; the
    conversions use `StepName` and `TimedName`. */
module LegacyDependencyGraph {
  import opened Wrappers
  import opened Plans
  import opened DiGraph

  /** The attributes of a node: the action name and its actual parameters. */
  datatype LegacyData = LegacyData(action: string, parameters: seq<string>)

  type LegacyGraph = Graph<string, LegacyData>

  /** The `weight` attribute of the edges that carry one. */
  type Weights = map<(string, string), real>

  datatype LegacyError =
    | PlanTypeNotSupported     // NotImplementedError of `plan_to_dependency_graph`
    | MissingDuration          // AttributeError: a step without a duration

  /** A step the conversion adds: its node text, its record, and the weight
      its edge carries (used by the time-triggered conversion only). */
  datatype Step = Step(name: string, data: LegacyData, weight: real)

  function Sentinel(name: string): LegacyData
  {
    LegacyData(name, [])
  }

  /** The items of a tuple joined as Python prints them. */
  function JoinItems(ps: seq<string>): string
  {
    if |ps| <= 1 then (if ps == [] then "" else ps[0])
    else JoinItems(ps[..|ps| - 1]) + ", " + ps[|ps| - 1]
  }

  /** Python's text of a tuple: "()", "(a,)", "(a, b)". */
  function TupleText(ps: seq<string>): (t: string)
    ensures |t| > 0 && t[0] == '('
  {
    if |ps| == 1 then "(" + ps[0] + ",)" else "(" + JoinItems(ps) + ")"
  }

  /** The node of a sequential step: the action name, then the tuple. */
  function StepName(a: ActionInstance): string
  {
    a.action.name + TupleText(a.actualParameters)
  }

  /** The node of a time-triggered step: the sequential text followed by the
      duration, as a float, in parentheses with an "s". */
  function TimedName(a: ActionInstance, d: Duration): string
  {
    StepName(a) + "(" + d.text + "s)"
  }

  /** Every step has a duration; the conversion raises at the first that
      has none, whatever its start time. */
  predicate HasDurations(ts: seq<TimedAction>)
  {
    forall k :: 0 <= k < |ts| ==> ts[k].duration.Some?
  }

  function StepData(a: ActionInstance): LegacyData
  {
    LegacyData(a.action.name, a.actualParameters)
  }

  /** A text holding a parenthesis is neither sentinel. */
  lemma ParenNotSentinel(s: string)
    requires '(' in s
    ensures s != "start" && s != "end"
  {
    assert "start" == ['s', 't', 'a', 'r', 't'] && '(' !in "start";
    assert "end" == ['e', 'n', 'd'] && '(' !in "end";
  }

  /** A step's node text always holds a parenthesis, so no step shares a
      node with a sentinel. */
  lemma StepNameNotSentinel(a: ActionInstance)
    ensures '(' in StepName(a)
    ensures StepName(a) != "start" && StepName(a) != "end"
  {
    var t := TupleText(a.actualParameters);
    assert StepName(a)[|a.action.name|] == t[0];
    ParenNotSentinel(StepName(a));
  }

  lemma TimedNameNotSentinel(a: ActionInstance, d: Duration)
    ensures TimedName(a, d) != "start" && TimedName(a, d) != "end"
  {
    StepNameNotSentinel(a);
    var s := StepName(a);
    var i :| 0 <= i < |s| && s[i] == '(';
    assert TimedName(a, d)[i] == '(';
    ParenNotSentinel(TimedName(a, d));
  }

  /** No step is keyed "start" or "end". */
  predicate NoSentinel(steps: seq<Step>)
  {
    forall k :: 0 <= k < |steps| ==> steps[k].name != "start" && steps[k].name != "end"
  }

  /** The steps of a sequential plan, one per action, in order. */
  function SequentialSteps(actions: seq<ActionInstance>, key: ActionInstance -> string): (steps: seq<Step>)
    ensures |steps| == |actions|
  {
    seq(|actions|, k requires 0 <= k < |actions| => Step(key(actions[k]), StepData(actions[k]), 0.0))
  }

  lemma SequentialStepsNoSentinel(actions: seq<ActionInstance>)
    ensures NoSentinel(SequentialSteps(actions, StepName))
  {
    forall k | 0 <= k < |actions| ensures StepName(actions[k]) != "start" && StepName(actions[k]) != "end" {
      StepNameNotSentinel(actions[k]);
    }
  }

  /** The step a time-triggered action adds, weighted by its duration. */
  function TimedStep(t: TimedAction, key: (ActionInstance, Duration) -> string): Step
    requires t.duration.Some?
  {
    Step(key(t.instance, t.duration.value), StepData(t.instance), t.duration.value.value)
  }

  /** The steps of a time-triggered plan: only the actions starting at 0, in
      order, each weighted by its duration. (An action without a duration
      gives no step; the conversion raises before it could matter.) */
  function ZeroStartSteps(ts: seq<TimedAction>, key: (ActionInstance, Duration) -> string): (steps: seq<Step>)
    ensures |steps| <= |ts|
  {
    if ts == [] then []
    else
      var front := ZeroStartSteps(ts[..|ts| - 1], key);
      var t := ts[|ts| - 1];
      if t.start == 0.0 && t.duration.Some? then front + [TimedStep(t, key)] else front
  }

  /** Every step comes from an action starting at 0. */
  lemma {:induction false} ZeroStartStepsFrom(ts: seq<TimedAction>, key: (ActionInstance, Duration) -> string)
    requires HasDurations(ts)
    ensures forall s :: s in ZeroStartSteps(ts, key) ==> exists k :: 0 <= k < |ts| && ts[k].start == 0.0 && s == TimedStep(ts[k], key)
    decreases |ts|
  {
    if ts != [] {
      var front := ts[..|ts| - 1];
      ZeroStartStepsFrom(front, key);
      forall s | s in ZeroStartSteps(ts, key)
        ensures exists k :: 0 <= k < |ts| && ts[k].start == 0.0 && s == TimedStep(ts[k], key)
      {
        if s in ZeroStartSteps(front, key) {
          var k :| 0 <= k < |front| && front[k].start == 0.0 && s == TimedStep(front[k], key);
          assert ts[k] == front[k];
        } else {
          assert ts[|ts| - 1].start == 0.0 && s == TimedStep(ts[|ts| - 1], key);
        }
      }
    }
  }

  /** Every action starting at 0 gives a step. */
  lemma {:induction false} ZeroStartStepsCover(ts: seq<TimedAction>, key: (ActionInstance, Duration) -> string)
    requires HasDurations(ts)
    ensures forall k :: 0 <= k < |ts| && ts[k].start == 0.0 ==> TimedStep(ts[k], key) in ZeroStartSteps(ts, key)
    decreases |ts|
  {
    if ts != [] {
      var front := ts[..|ts| - 1];
      ZeroStartStepsCover(front, key);
      forall k | 0 <= k < |front| && ts[k].start == 0.0
        ensures TimedStep(ts[k], key) in ZeroStartSteps(ts, key)
      {
        assert ts[k] == front[k];
      }
    }
  }

  /** No action starting at 0, no step. */
  lemma {:induction false} ZeroStartNone(ts: seq<TimedAction>, key: (ActionInstance, Duration) -> string)
    requires HasDurations(ts)
    requires forall k :: 0 <= k < |ts| ==> ts[k].start != 0.0
    ensures ZeroStartSteps(ts, key) == []
    decreases |ts|
  {
    if ts != [] {
      ZeroStartNone(ts[..|ts| - 1], key);
    }
  }

  lemma {:induction false} ZeroStartNoSentinel(ts: seq<TimedAction>)
    requires HasDurations(ts)
    ensures NoSentinel(ZeroStartSteps(ts, TimedName))
    decreases |ts|
  {
    if ts != [] {
      ZeroStartNoSentinel(ts[..|ts| - 1]);
      TimedNameNotSentinel(ts[|ts| - 1].instance, ts[|ts| - 1].duration.value);
    }
  }

  /** The node the edge into step `k` of a chain comes from: "start" for the
      first step, otherwise the previous step's node. */
  function Prev(steps: seq<Step>, k: nat): string
    requires k <= |steps|
  {
    if k == 0 then "start" else steps[k - 1].name
  }

  /** The nodes once "start" and `steps` are added, in insertion order: a
      node added again keeps its place. */
  function NodesOf(steps: seq<Step>): seq<string>
  {
    if steps == [] then ["start"]
    else
      var ns := NodesOf(steps[..|steps| - 1]);
      var n := steps[|steps| - 1].name;
      if n in ns then ns else ns + [n]
  }

  /** The records once "start" and `steps` are added: a node added again
      takes the new record. */
  function AttrsOf(steps: seq<Step>): map<string, LegacyData>
  {
    if steps == [] then map["start" := Sentinel("start")]
    else AttrsOf(steps[..|steps| - 1])[steps[|steps| - 1].name := steps[|steps| - 1].data]
  }

  /** The edges of a chain: each step is entered from the node before it. */
  function ChainEdgesOf(steps: seq<Step>): set<(string, string)>
  {
    if steps == [] then {}
    else ChainEdgesOf(steps[..|steps| - 1]) + {(Prev(steps, |steps| - 1), steps[|steps| - 1].name)}
  }

  /** The edges of a star: each step is entered from "start". */
  function StarEdgesOf(steps: seq<Step>): set<(string, string)>
  {
    if steps == [] then {}
    else StarEdgesOf(steps[..|steps| - 1]) + {("start", steps[|steps| - 1].name)}
  }

  /** The weights of a star: an edge added again takes the new weight. */
  function WeightsOf(steps: seq<Step>): Weights
  {
    if steps == [] then map[]
    else WeightsOf(steps[..|steps| - 1])[("start", steps[|steps| - 1].name) := steps[|steps| - 1].weight]
  }

  /** `add_node("end")` then `add_edge(u, "end")`. */
  function WithEnd(g: LegacyGraph, u: string): LegacyGraph
  {
    Graph(if "end" in g.nodes then g.nodes else g.nodes + ["end"],
          g.attrs["end" := Sentinel("end")],
          g.edges + {(u, "end")})
  }

  /** The graph `_sequential_plan_to_dependency_graph` builds from `steps`. */
  function Chain(steps: seq<Step>): LegacyGraph
  {
    WithEnd(Graph(NodesOf(steps), AttrsOf(steps), ChainEdgesOf(steps)), Prev(steps, |steps|))
  }

  /** The graph `_time_triggered_plan_to_dependency_graph` builds from
      `steps`: the parent is never updated, so "end" too hangs off "start". */
  function Star(steps: seq<Step>): LegacyGraph
  {
    WithEnd(Graph(NodesOf(steps), AttrsOf(steps), StarEdgesOf(steps)), "start")
  }

  function SequentialChain(actions: seq<ActionInstance>): LegacyGraph
  {
    Chain(SequentialSteps(actions, StepName))
  }

  /** The graph of a time-triggered plan. */
  function TimedStar(ts: seq<TimedAction>): LegacyGraph
    requires HasDurations(ts)
  {
    Star(ZeroStartSteps(ts, TimedName))
  }

  /** The edge weights of a time-triggered plan. */
  function TimedWeights(ts: seq<TimedAction>): Weights
    requires HasDurations(ts)
  {
    WeightsOf(ZeroStartSteps(ts, TimedName))
  }

  /** `add_node(v)` then `add_edge(u, v)` from a node `u` already present. */
  lemma AddNodeThenEdge(g: LegacyGraph, v: string, d: LegacyData, u: string)
    requires u in g.nodes
    ensures AddEdge(AddNode(g, v, d), u, v)
         == Graph(if v in g.nodes then g.nodes else g.nodes + [v], g.attrs[v := d], g.edges + {(u, v)})
  {
  }

  /** `_sequential_plan_to_dependency_graph`. */
  method SequentialGraph(actions: seq<ActionInstance>) returns (g: LegacyGraph)
    ensures g == SequentialChain(actions)
  {
    ghost var steps := SequentialSteps(actions, StepName);
    g := AddNode(Empty(), "start", Sentinel("start"));
    var edge := "start";
    var i := 0;
    while i < |actions|
      invariant 0 <= i <= |actions|
      invariant edge == Prev(steps, i)
      invariant g == Graph(NodesOf(steps[..i]), AttrsOf(steps[..i]), ChainEdgesOf(steps[..i]))
    {
      var child := StepName(actions[i]);
      var data := StepData(actions[i]);
      assert steps[i] == Step(child, data, 0.0);
      ChainStep(steps, i);
      g := AddNode(g, child, data);
      g := AddEdge(g, edge, child);
      edge := child;
      i := i + 1;
    }
    assert steps[..i] == steps;
    NodesOfSpec(steps);
    assert edge == Prev(steps, |steps|);
    AddNodeThenEdge(g, "end", Sentinel("end"), edge);
    g := AddNode(g, "end", Sentinel("end"));
    g := AddEdge(g, edge, "end");
  }

  /** One turn of the sequential loop: the graph of the first `i + 1` steps
      is that of the first `i` with step `i` added after its predecessor. */
  lemma ChainStep(steps: seq<Step>, i: nat)
    requires i < |steps|
    ensures var g := Graph(NodesOf(steps[..i]), AttrsOf(steps[..i]), ChainEdgesOf(steps[..i]));
            AddEdge(AddNode(g, steps[i].name, steps[i].data), Prev(steps, i), steps[i].name)
            == Graph(NodesOf(steps[..i + 1]), AttrsOf(steps[..i + 1]), ChainEdgesOf(steps[..i + 1]))
  {
    var front := steps[..i];
    var next := steps[..i + 1];
    assert next[..i] == front && next[i] == steps[i];
    NodesOfSpec(front);
    assert Prev(steps, i) == Prev(front, i);
    AddNodeThenEdge(Graph(NodesOf(front), AttrsOf(front), ChainEdgesOf(front)), steps[i].name, steps[i].data, Prev(steps, i));
  }

  /** One turn of the time-triggered loop: the graph and weights of the
      steps with one more step entered from "start". */
  lemma StarStep(steps: seq<Step>, s: Step)
    ensures var g := Graph(NodesOf(steps), AttrsOf(steps), StarEdgesOf(steps));
            var next := steps + [s];
            && AddEdge(AddNode(g, s.name, s.data), "start", s.name)
               == Graph(NodesOf(next), AttrsOf(next), StarEdgesOf(next))
            && WeightsOf(steps)[("start", s.name) := s.weight] == WeightsOf(next)
  {
    var next := steps + [s];
    assert next[..|steps|] == steps && next[|steps|] == s;
    NodesOfSpec(steps);
    AddNodeThenEdge(Graph(NodesOf(steps), AttrsOf(steps), StarEdgesOf(steps)), s.name, s.data, "start");
  }

  /** One turn of the time-triggered loop: a step starting at 0 is added
      under "start" with its duration as weight; any other is skipped. */
  lemma StarLoopStep(ts: seq<TimedAction>, i: nat, steps: seq<Step>)
    requires i < |ts| && ts[i].duration.Some?
    requires steps == ZeroStartSteps(ts[..i], TimedName)
    ensures var g := Graph(NodesOf(steps), AttrsOf(steps), StarEdgesOf(steps));
            var next := ZeroStartSteps(ts[..i + 1], TimedName);
            var name := TimedName(ts[i].instance, ts[i].duration.value);
            && (if ts[i].start == 0.0 then AddEdge(AddNode(g, name, StepData(ts[i].instance)), "start", name) else g)
               == Graph(NodesOf(next), AttrsOf(next), StarEdgesOf(next))
            && (if ts[i].start == 0.0 then WeightsOf(steps)[("start", name) := ts[i].duration.value.value] else WeightsOf(steps))
               == WeightsOf(next)
  {
    ZeroStartStepsGrow(ts, i);
    var next := ZeroStartSteps(ts[..i + 1], TimedName);
    if ts[i].start == 0.0 {
      var step := TimedStep(ts[i], TimedName);
      assert next == steps + [step];
      StarStep(steps, step);
    } else {
      assert next == steps;
    }
  }

  /** Closing the time-triggered loop: "end" entered from "start". */
  lemma StarDone(steps: seq<Step>)
    ensures var g := Graph(NodesOf(steps), AttrsOf(steps), StarEdgesOf(steps));
            AddEdge(AddNode(g, "end", Sentinel("end")), "start", "end") == Star(steps)
  {
    NodesOfSpec(steps);
    AddNodeThenEdge(Graph(NodesOf(steps), AttrsOf(steps), StarEdgesOf(steps)), "end", Sentinel("end"), "start");
  }

  lemma DurationsGrow(ts: seq<TimedAction>, i: nat)
    requires i < |ts| && HasDurations(ts[..i]) && ts[i].duration.Some?
    ensures HasDurations(ts[..i + 1])
  {
    assert forall k :: 0 <= k < i ==> ts[..i + 1][k] == ts[..i][k];
  }

  /** One more step of the plan adds its step when it starts at 0. */
  lemma ZeroStartStepsGrow(ts: seq<TimedAction>, i: nat)
    requires i < |ts| && ts[i].duration.Some?
    ensures ZeroStartSteps(ts[..i + 1], TimedName)
         == ZeroStartSteps(ts[..i], TimedName) + (if ts[i].start == 0.0 then [TimedStep(ts[i], TimedName)] else [])
  {
    assert ts[..i + 1][..i] == ts[..i] && ts[..i + 1][i] == ts[i];
  }

  /** `_time_triggered_plan_to_dependency_graph`: the graph and the edge
      weights, or the error of the first step without a duration. */
  method TimeTriggeredGraph(ts: seq<TimedAction>) returns (r: Result<(LegacyGraph, Weights), LegacyError>)
    ensures r.Err? <==> !HasDurations(ts)
    ensures r.Err? ==> r.error == MissingDuration
    ensures r.Ok? ==> r.value == (TimedStar(ts), TimedWeights(ts))
  {
    var parent := "start";
    var g := AddNode(Empty(), parent, Sentinel("start"));
    var w: Weights := map[];
    var i := 0;
    ghost var steps: seq<Step> := [];
    while i < |ts|
      invariant 0 <= i <= |ts|
      invariant HasDurations(ts[..i])
      invariant steps == ZeroStartSteps(ts[..i], TimedName)
      invariant g == Graph(NodesOf(steps), AttrsOf(steps), StarEdgesOf(steps))
      invariant w == WeightsOf(steps)
    {
      var t := ts[i];
      if t.duration.None? {
        return Err(MissingDuration);
      }
      var duration := t.duration.value;
      StarLoopStep(ts, i, steps);
      DurationsGrow(ts, i);
      if t.start == 0.0 {
        var child := TimedName(t.instance, duration);
        var data := StepData(t.instance);
        g := AddNode(g, child, data);
        g := AddEdge(g, parent, child);
        w := w[(parent, child) := duration.value];
      }
      steps := ZeroStartSteps(ts[..i + 1], TimedName);
      i := i + 1;
    }
    assert ts[..i] == ts;
    StarDone(steps);
    g := AddNode(g, "end", Sentinel("end"));
    g := AddEdge(g, parent, "end");
    return Ok((g, w));
  }

  /** `plan_to_dependency_graph`: a sequential plan gives a chain without
      weights, a time-triggered plan a star with its weights (or raises at a
      step without a duration), and any other plan raises
      NotImplementedError. */
  method PlanToDependencyGraph(plan: Plan) returns (r: Result<(LegacyGraph, Weights), LegacyError>)
    ensures plan.SequentialPlan? ==> r == Ok((SequentialChain(plan.actions), map[]))
    ensures plan.TimeTriggeredPlan? && HasDurations(plan.timedActions) ==>
              r == Ok((TimedStar(plan.timedActions), TimedWeights(plan.timedActions)))
    ensures plan.TimeTriggeredPlan? && !HasDurations(plan.timedActions) ==> r == Err(MissingDuration)
    ensures r.Err? <==> !plan.SequentialPlan? && !(plan.TimeTriggeredPlan? && HasDurations(plan.timedActions))
  {
    match plan {
      case SequentialPlan(actions) =>
        var g := SequentialGraph(actions);
        return Ok((g, map[]));
      case TimeTriggeredPlan(ts) =>
        r := TimeTriggeredGraph(ts);
      case _ =>
        return Err(PlanTypeNotSupported);
    }
  }

  /** The nodes: "start" first, then the steps' texts, each once; the
      records are kept for exactly these nodes. */
  lemma NodesOfSpec(steps: seq<Step>)
    ensures Distinct(NodesOf(steps)) && NodesOf(steps)[0] == "start"
    ensures forall n :: n in NodesOf(steps) <==> n == "start" || exists k :: 0 <= k < |steps| && n == steps[k].name
    ensures forall n :: n in AttrsOf(steps) <==> n in NodesOf(steps)
  {
    NodesOfDistinct(steps);
    NodesOfMembers(steps);
  }

  lemma {:induction false} NodesOfDistinct(steps: seq<Step>)
    ensures Distinct(NodesOf(steps)) && NodesOf(steps)[0] == "start"
    ensures forall n :: n in AttrsOf(steps) <==> n in NodesOf(steps)
    decreases |steps|
  {
    if steps != [] {
      var front := steps[..|steps| - 1];
      NodesOfDistinct(front);
      var n := steps[|steps| - 1].name;
      if n !in NodesOf(front) {
        DistinctSnoc(NodesOf(front), n);
      }
    }
  }

  lemma {:induction false} NodesOfMembers(steps: seq<Step>)
    ensures forall n :: n in NodesOf(steps) <==> n == "start" || exists k :: 0 <= k < |steps| && n == steps[k].name
    decreases |steps|
  {
    if steps != [] {
      var front := steps[..|steps| - 1];
      NodesOfMembers(front);
      NodesOfDistinct(front);
      forall m | m in NodesOf(steps) && m != "start"
        ensures exists k :: 0 <= k < |steps| && m == steps[k].name
      {
        if m in NodesOf(front) {
          var k :| 0 <= k < |front| && m == front[k].name;
          assert steps[k] == front[k];
        } else {
          assert m == steps[|steps| - 1].name;
        }
      }
      forall k | 0 <= k < |steps|
        ensures steps[k].name in NodesOf(steps)
      {
        if k < |front| {
          assert front[k].name in NodesOf(front);
        }
      }
    }
  }

  lemma DistinctSnoc<T>(s: seq<T>, x: T)
    requires Distinct(s) && x !in s
    ensures Distinct(s + [x])
  {
    forall i, j | 0 <= i < j < |s + [x]| ensures (s + [x])[i] != (s + [x])[j] {
      if j == |s| {
        assert (s + [x])[i] == s[i];
      }
    }
  }

  /** Step `k` is the last of `steps` with its node text, so its record is
      the one the node keeps. */
  predicate LastOfName(steps: seq<Step>, k: nat)
    requires k < |steps|
  {
    forall j :: k < j < |steps| ==> steps[j].name != steps[k].name
  }

  /** "start" keeps its record, and each node holds the record of the last
      step with its text. */
  lemma {:induction false} AttrsOfSpec(steps: seq<Step>)
    requires NoSentinel(steps)
    ensures "start" in AttrsOf(steps) && AttrsOf(steps)["start"] == Sentinel("start")
    ensures forall k :: 0 <= k < |steps| && LastOfName(steps, k) ==>
              steps[k].name in AttrsOf(steps) && AttrsOf(steps)[steps[k].name] == steps[k].data
    decreases |steps|
  {
    if steps != [] {
      var front := steps[..|steps| - 1];
      AttrsOfSpec(front);
      forall k | 0 <= k < |front| && LastOfName(steps, k)
        ensures LastOfName(front, k)
      {
      }
    }
  }

  /** The chain's edges: one into each step from the node before it. */
  lemma {:induction false} ChainEdgesOfSpec(steps: seq<Step>)
    ensures forall e :: e in ChainEdgesOf(steps) <==> exists k :: 0 <= k < |steps| && e == (Prev(steps, k), steps[k].name)
    decreases |steps|
  {
    if steps != [] {
      var front := steps[..|steps| - 1];
      var last := |steps| - 1;
      ChainEdgesOfSpec(front);
      forall e | e in ChainEdgesOf(steps)
        ensures exists k :: 0 <= k < |steps| && e == (Prev(steps, k), steps[k].name)
      {
        if e in ChainEdgesOf(front) {
          var k :| 0 <= k < |front| && e == (Prev(front, k), front[k].name);
          assert e == (Prev(steps, k), steps[k].name);
        } else {
          assert e == (Prev(steps, last), steps[last].name);
        }
      }
      forall k | 0 <= k < |steps|
        ensures (Prev(steps, k), steps[k].name) in ChainEdgesOf(steps)
      {
        if k < last {
          assert (Prev(front, k), front[k].name) in ChainEdgesOf(front);
        }
      }
    }
  }

  /** The star's edges: one from "start" into each step. */
  lemma {:induction false} StarEdgesOfSpec(steps: seq<Step>)
    ensures forall e :: e in StarEdgesOf(steps) <==> exists k :: 0 <= k < |steps| && e == ("start", steps[k].name)
    decreases |steps|
  {
    if steps != [] {
      var front := steps[..|steps| - 1];
      var last := |steps| - 1;
      StarEdgesOfSpec(front);
      forall e | e in StarEdgesOf(steps)
        ensures exists k :: 0 <= k < |steps| && e == ("start", steps[k].name)
      {
        if e in StarEdgesOf(front) {
          var k :| 0 <= k < |front| && e == ("start", front[k].name);
          assert e == ("start", steps[k].name);
        } else {
          assert e == ("start", steps[last].name);
        }
      }
      forall k | 0 <= k < |steps|
        ensures ("start", steps[k].name) in StarEdgesOf(steps)
      {
        if k < last {
          assert ("start", front[k].name) in StarEdgesOf(front);
        }
      }
    }
  }

  /** Every edge of the star carries a weight, and it is the duration of the
      last step entered along it. */
  lemma {:induction false} WeightsOfSpec(steps: seq<Step>)
    ensures forall e :: e in WeightsOf(steps) <==> e in StarEdgesOf(steps)
    ensures forall k :: 0 <= k < |steps| && LastOfName(steps, k) ==>
              ("start", steps[k].name) in WeightsOf(steps) && WeightsOf(steps)[("start", steps[k].name)] == steps[k].weight
    decreases |steps|
  {
    if steps != [] {
      var front := steps[..|steps| - 1];
      WeightsOfSpec(front);
      forall k | 0 <= k < |front| && LastOfName(steps, k)
        ensures LastOfName(front, k)
      {
      }
    }
  }

  /** Adding "end" to a well-formed graph without it, after a node `u` it
      holds. */
  lemma WithEndSpec(g: LegacyGraph, u: string)
    requires Valid(g) && u in g.nodes && "end" !in g.nodes
    ensures Valid(WithEnd(g, u))
    ensures WithEnd(g, u).nodes == g.nodes + ["end"]
  {
    DistinctSnoc(g.nodes, "end");
  }

  /** The sequential graph: nodes "start", the steps and "end", each once,
      every step's node with the record of the last step printed as it; an
      edge from each node to the next and from the last to "end", none
      else. */
  lemma ChainShape(steps: seq<Step>)
    requires NoSentinel(steps)
    ensures var g := Chain(steps);
            && Valid(g)
            && |g.nodes| > 0 && g.nodes[0] == "start" && g.nodes[|g.nodes| - 1] == "end"
            && (forall n :: n in g.nodes <==> n == "start" || n == "end" || exists k :: 0 <= k < |steps| && n == steps[k].name)
            && (forall e :: e in g.edges <==>
                  e == (Prev(steps, |steps|), "end") || exists k :: 0 <= k < |steps| && e == (Prev(steps, k), steps[k].name))
            && "start" in g.attrs && g.attrs["start"] == Sentinel("start")
            && "end" in g.attrs && g.attrs["end"] == Sentinel("end")
            && (forall k :: 0 <= k < |steps| && LastOfName(steps, k) ==>
                  steps[k].name in g.attrs && g.attrs[steps[k].name] == steps[k].data)
  {
    NodesOfSpec(steps);
    AttrsOfSpec(steps);
    ChainEdgesOfSpec(steps);
    var run := Graph(NodesOf(steps), AttrsOf(steps), ChainEdgesOf(steps));
    assert Prev(steps, |steps|) in run.nodes;
    WithEndSpec(run, Prev(steps, |steps|));
  }

  /** The time-triggered graph: nodes "start", the steps and "end", each
      once; every edge leaves "start", one into each step and one into
      "end"; each step's edge weighs the duration of the last step printed
      as it, and "end" is entered from "start" alone. */
  lemma StarShape(steps: seq<Step>)
    requires NoSentinel(steps)
    ensures var g := Star(steps);
            && Valid(g)
            && (forall n :: n in g.nodes <==> n == "start" || n == "end" || exists k :: 0 <= k < |steps| && n == steps[k].name)
            && (forall e :: e in g.edges <==> e == ("start", "end") || exists k :: 0 <= k < |steps| && e == ("start", steps[k].name))
            && (forall e :: e in g.edges ==> e.0 == "start")
            && Predecessors(g, "end") == {"start"}
            && (forall k :: 0 <= k < |steps| && LastOfName(steps, k) ==>
                  steps[k].name in g.attrs && g.attrs[steps[k].name] == steps[k].data
                  && ("start", steps[k].name) in WeightsOf(steps) && WeightsOf(steps)[("start", steps[k].name)] == steps[k].weight)
  {
    NodesOfSpec(steps);
    AttrsOfSpec(steps);
    StarEdgesOfSpec(steps);
    WeightsOfSpec(steps);
    var run := Graph(NodesOf(steps), AttrsOf(steps), StarEdgesOf(steps));
    WithEndSpec(run, "start");
    var g := Star(steps);
    assert ("start", "end") in g.edges;
    forall p | p in Predecessors(g, "end") ensures p == "start" {
      assert (p, "end") in g.edges;
    }
  }

  /** An empty sequential plan gives "start", "end" and the one edge
      between them. */
  lemma EmptySequentialPlan()
    ensures SequentialChain([]).nodes == ["start", "end"]
    ensures SequentialChain([]).edges == {("start", "end")}
  {
  }

  /** Two consecutive steps printed alike share a node, which gets an edge
      to itself. */
  lemma ConsecutiveRepeatLoops(steps: seq<Step>, k: nat)
    requires k + 1 < |steps| && steps[k].name == steps[k + 1].name
    ensures (steps[k].name, steps[k].name) in Chain(steps).edges
  {
    ChainEdgesOfSpec(steps);
    assert Prev(steps, k + 1) == steps[k].name;
  }

  /** A time-triggered plan whose actions all start after 0 gives only
      "start" and "end" joined by one edge. */
  lemma LateStartsIgnored(ts: seq<TimedAction>)
    requires HasDurations(ts)
    requires forall k :: 0 <= k < |ts| ==> ts[k].start != 0.0
    ensures TimedStar(ts).nodes == ["start", "end"]
    ensures TimedStar(ts).edges == {("start", "end")}
  {
    ZeroStartNone(ts, TimedName);
  }
}
