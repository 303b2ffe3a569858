/** `plan_to_dependency_graph` in up_esb/components/graph.py: the conversion
    chosen by the kind of plan. */
module PlanGraph {
  import opened Wrappers
  import opened Plans
  import opened DiGraph
  import opened DependencyGraph
  import opened PartialOrder

  /** The plan can be converted: a supported kind whose steps are all of a
      known kind of action. */
  predicate Convertible(plan: Plan)
  {
    match plan
    case SequentialPlan(actions) => AllKnown(actions)
    case TimeTriggeredPlan(ta) => AllKnownTimed(ta)
    case PartialOrderPlan(adj) => KeysKnown(adj)
    case OtherPlan => false
  }

  /** What converting `plan` raises: for a sequential or partial-order plan
      the ValueError of a step of unknown kind, for a time-triggered plan the
      error of its first step that cannot be converted, and
      NotImplementedError for any other kind of plan. */
  function ConversionError(plan: Plan): (e: Option<GraphError>)
    ensures e.None? <==> Convertible(plan)
  {
    match plan
    case SequentialPlan(actions) => if AllKnown(actions) then None else Some(UnknownActionType)
    case TimeTriggeredPlan(ta) => FirstTimedError(ta)
    case PartialOrderPlan(adj) => if KeysKnown(adj) then None else Some(UnknownActionType)
    case OtherPlan => Some(PlanTypeNotSupported)
  }

  /** `g` is the dependency graph of `plan`: for a sequential plan the chain
      from "start" (node 0) through the steps to "end"; for a time-triggered
      plan the graph of `TimeTriggeredGraph`, with the join looked up by
      name when `asWritten`; for a partial-order plan the graph of
      `PartialOrderGraph` under some numbering of its steps. */
  ghost predicate DependencyGraphOf(plan: Plan, g: DepGraph, asWritten: bool)
  {
    match plan
    case SequentialPlan(actions) =>
      && AllKnown(actions)
      && Valid(g)
      && g.nodes == Ids(|actions| + 2)
      && (forall u, v :: (u, v) in g.edges <==> 0 <= u <= |actions| && v == u + 1)
      && (forall k :: k in g.attrs <==> 0 <= k < |actions| + 2)
      && g.attrs[0] == Sentinel("start") && g.attrs[|actions| + 1] == Sentinel("end")
      && (forall i :: 0 <= i < |actions| ==> g.attrs[i + 1] == StepData(actions[i], actions[i].rendered))
    case TimeTriggeredPlan(ta) => AllKnownTimed(ta) && g == TimeTriggeredGraph(ta, asWritten)
    case PartialOrderPlan(adj) => exists m :: Numbering(adj, m) && KeysKnown(adj) && g == PartialOrderGraph(adj, m)
    case OtherPlan => false
  }

  /** `plan_to_dependency_graph`; `asWritten` selects the join of a
      time-triggered plan as the code writes it. */
  method PlanToDependencyGraph(plan: Plan, asWritten: bool) returns (r: Result<DepGraph, GraphError>)
    ensures r.Err? <==> !Convertible(plan)
    ensures r.Err? ==> ConversionError(plan) == Some(r.error)
    ensures r.Ok? ==> DependencyGraphOf(plan, r.value, asWritten)
  {
    match plan
    case SequentialPlan(actions) =>
      r := SequentialPlanToGraph(actions);
    case TimeTriggeredPlan(ta) =>
      r := TimeTriggeredPlanToGraph(ta, asWritten);
    case PartialOrderPlan(adj) =>
      r := PartialOrderPlanToGraph(adj);
    case OtherPlan =>
      r := Err(PlanTypeNotSupported);
  }
}
