/** `PlanDispatcher` (up_esb/plexmo/dispatcher.py): runs every action node of
    an executable graph through an executor and checks its result, and offers
    a default dispatch callback that checks conditions around an action. */
module Dispatcher {
  import opened Wrappers
  import opened Status
  import opened DiGraph
  import opened Plans
  import PyDict
  import EM = ExpressionManager
  import opened ExecutionBridge

  /** What an executor reports about one action. */
  datatype ActionResult = ActionResult(
    preconditionStatus: ConditionStatus,
    actionStatus: ActionNodeStatus,
    postconditionStatus: ConditionStatus)

  /** The dispatch callback in place: the dispatcher's own default one, or one
      supplied by the application (identified by an opaque number). */
  datatype Callback = DefaultCallback | UserCallback(id: nat)

  /** `_check_result`: an action succeeded when its preconditions, the action
      itself and its postconditions all report SUCCEEDED. */
  predicate CheckResult(res: ActionResult)
  {
    && res.preconditionStatus == CondSucceeded
    && res.actionStatus == Succeeded
    && res.postconditionStatus == CondSucceeded
  }

  // ---------------------------------------------------------------------------
  // The node loop of `execute_plan`
  // ---------------------------------------------------------------------------

  /** The nodes the loop hands to the executor, in iteration order: those with
      a record whose action is neither "start" nor "end". */
  function Steps(ns: seq<int>, attrs: map<int, ExecNode>): seq<int>
  {
    if ns == [] then []
    else
      var last := ns[|ns| - 1];
      Steps(ns[..|ns| - 1], attrs) + (if last in attrs && !IsSentinelRecord(attrs[last]) then [last] else [])
  }

  /** Every result handed back for `calls` passes the check. */
  predicate AllPass(calls: seq<int>, execute: int -> ActionResult)
  {
    forall i :: 0 <= i < |calls| ==> CheckResult(execute(calls[i]))
  }

  lemma AllPassSnoc(calls: seq<int>, n: int, execute: int -> ActionResult)
    ensures AllPass(calls + [n], execute) <==> AllPass(calls, execute) && CheckResult(execute(n))
  {
    assert (calls + [n])[|calls|] == n;
    assert forall i :: 0 <= i < |calls| ==> (calls + [n])[i] == calls[i];
  }

  /** The executed nodes are exactly the non-sentinel nodes with a record. */
  lemma {:induction false} StepsMembers(ns: seq<int>, attrs: map<int, ExecNode>, n: int)
    ensures n in Steps(ns, attrs) <==> n in ns && n in attrs && !IsSentinelRecord(attrs[n])
  {
    if ns != [] {
      var front := ns[..|ns| - 1];
      StepsMembers(front, attrs, n);
      assert ns == front + [ns[|ns| - 1]];
    }
  }

  /** Over distinct nodes, each executed node is executed exactly once. */
  lemma {:induction false} StepsOnce(ns: seq<int>, attrs: map<int, ExecNode>, n: int)
    requires Distinct(ns)
    ensures multiset(Steps(ns, attrs))[n] == if n in ns && n in attrs && !IsSentinelRecord(attrs[n]) then 1 else 0
  {
    if ns != [] {
      var front := ns[..|ns| - 1];
      var last := ns[|ns| - 1];
      assert ns == front + [last];
      assert Distinct(front);
      StepsOnce(front, attrs, n);
      StepsMembers(front, attrs, last);
      assert last !in front;
    }
  }

  // ---------------------------------------------------------------------------
  // Condition checks of the default dispatch callback
  // ---------------------------------------------------------------------------

  /** How one condition fares: it holds, it does not hold, or evaluating it
      raises. */
  datatype Verdict = Holds | Fails | Raises

  /** A verdict lets the callback carry on: it holds, or it fails during a dry
      run. */
  predicate Passes(v: Verdict, dryRun: bool)
  {
    v == Holds || (v == Fails && dryRun)
  }

  /** Python's `==` on the values conditions evaluate to (`True == 1 == 1.0`). */
  predicate PyEquals(a: EM.Value, b: EM.Value)
  {
    EM.Num(a) == EM.Num(b)
  }

  /** A precondition is evaluated in the state before the action and must be truthy. */
  function PreconditionVerdict(fl: EM.FluentValuation): EM.PyAst -> Verdict
  {
    (t: EM.PyAst) =>
      match EM.EvalAst(t, fl)
      case None => Raises
      case Some(v) => if EM.Truthy(v) then Holds else Fails
  }

  /** A postcondition pair is evaluated in the state after the action: the
      fluent side first, then the value side, and the two must be equal. */
  function PostconditionVerdict(fl: EM.FluentValuation): ((EM.PyAst, EM.PyAst)) -> Verdict
  {
    (c: (EM.PyAst, EM.PyAst)) =>
      match EM.EvalAst(c.0, fl)
      case None => Raises
      case Some(actual) =>
        match EM.EvalAst(c.1, fl)
        case None => Raises
        case Some(expected) => if PyEquals(actual, expected) then Holds else Fails
  }

  /** The verdict that stops the loop over `conds` from position `j` on, if any. */
  function GroupStop<T>(conds: seq<T>, j: nat, verdict: T -> Verdict, dryRun: bool): Option<Verdict>
    decreases |conds| - j
  {
    if j >= |conds| then None
    else if !Passes(verdict(conds[j]), dryRun) then Some(verdict(conds[j]))
    else GroupStop(conds, j + 1, verdict, dryRun)
  }

  /** The 1-based number of the interval group whose condition stops the loop
      over `groups` from group `i` on, with that condition's verdict. */
  function GroupsStop<T>(groups: PyDict.Dict<IntervalKey, seq<T>>, i: nat, verdict: T -> Verdict, dryRun: bool)
    : Option<(nat, Verdict)>
    decreases |groups| - i
  {
    if i >= |groups| then None
    else
      match GroupStop(groups[i].1, 0, verdict, dryRun)
      case Some(v) => Some((i + 1, v))
      case None => GroupsStop(groups, i + 1, verdict, dryRun)
  }

  /** The loop over one group stops exactly when a condition does not pass,
      and it stops on the first one. */
  lemma {:induction false} GroupStopSpec<T>(conds: seq<T>, j: nat, verdict: T -> Verdict, dryRun: bool)
    ensures GroupStop(conds, j, verdict, dryRun).None?
        <==> forall k :: j <= k < |conds| ==> Passes(verdict(conds[k]), dryRun)
    ensures GroupStop(conds, j, verdict, dryRun).Some? ==>
      exists k :: j <= k < |conds| && verdict(conds[k]) == GroupStop(conds, j, verdict, dryRun).value
                  && !Passes(verdict(conds[k]), dryRun)
                  && forall l :: j <= l < k ==> Passes(verdict(conds[l]), dryRun)
    decreases |conds| - j
  {
    if j < |conds| && Passes(verdict(conds[j]), dryRun) {
      GroupStopSpec(conds, j + 1, verdict, dryRun);
    }
  }

  /** The loop over the groups stops exactly when some condition of a group
      does not pass; the number it reports is that of the first such group. */
  lemma {:induction false} GroupsStopSpec<T>(groups: PyDict.Dict<IntervalKey, seq<T>>, i: nat, verdict: T -> Verdict, dryRun: bool)
    ensures GroupsStop(groups, i, verdict, dryRun).None?
        <==> forall g, k :: i <= g < |groups| && 0 <= k < |groups[g].1| ==> Passes(verdict(groups[g].1[k]), dryRun)
    ensures GroupsStop(groups, i, verdict, dryRun).Some? ==>
      var (n, v) := GroupsStop(groups, i, verdict, dryRun).value;
      && i + 1 <= n <= |groups|
      && !Passes(v, dryRun)
      && (var conds := groups[n - 1].1; exists k :: 0 <= k < |conds| && verdict(conds[k]) == v)
      && (forall g, k :: i <= g < n - 1 && 0 <= k < |groups[g].1| ==> Passes(verdict(groups[g].1[k]), dryRun))
    decreases |groups| - i
  {
    if i < |groups| {
      GroupStopSpec(groups[i].1, 0, verdict, dryRun);
      GroupsStopSpec(groups, i + 1, verdict, dryRun);
    }
  }

  // ---------------------------------------------------------------------------
  // The default dispatch callback
  // ---------------------------------------------------------------------------

  datatype DispatchError =
    | MissingKey(key: string)              // KeyError reading the record or the context
    | NoOptions                            // the dispatcher has not been given options yet
    | EvalFailed                           // evaluating a condition raises
    | PreconditionFailed(group: nat)       // RuntimeError "Precondition <group> ..."
    | PostconditionFailed(group: nat)      // RuntimeError "Postcondition <group> ..."

  /** Whether the action's executor was called, and the exception the callback
      ends with, if any. */
  datatype DispatchOutcome = DispatchOutcome(invoked: bool, error: Option<DispatchError>)

  /** `options.get("dry_run", False)`. */
  function DryRun(options: map<string, bool>): (dry: bool)
    ensures dry <==> "dry_run" in options && options["dry_run"]
  {
    if "dry_run" in options then options["dry_run"] else false
  }

  function ConditionError(stop: (nat, Verdict), pre: bool): DispatchError
  {
    if stop.1 == Raises then EvalFailed
    else if pre then PreconditionFailed(stop.0)
    else PostconditionFailed(stop.0)
  }

  /** `_default_dispatch_cb` for the node record `rec`, with `before` the
      fluent functions' values before the action and `after` their values
      after it. */
  function Dispatch(rec: ExecNode, options: Option<map<string, bool>>,
                    before: EM.FluentValuation, after: EM.FluentValuation): DispatchOutcome
  {
    match rec
    case Untouched(_) => DispatchOutcome(false, Some(MissingKey("context")))
    case Executable(_, action, _, pres, posts, context) =>
      if action !in context then DispatchOutcome(false, Some(MissingKey(action)))
      else if options.None? then DispatchOutcome(false, Some(NoOptions))
      else
        var dry := DryRun(options.value);
        match GroupsStop(pres, 0, PreconditionVerdict(before), dry)
        case Some(stop) => DispatchOutcome(false, Some(ConditionError(stop, true)))
        case None =>
          match GroupsStop(posts, 0, PostconditionVerdict(after), dry)
          case Some(stop) => DispatchOutcome(true, Some(ConditionError(stop, false)))
          case None => DispatchOutcome(true, None)
  }

  /** The action is invoked only for a complete record whose every
      precondition evaluates, and is truthy unless it is a dry run. */
  lemma InvokedAfterPreconditions(rec: ExecNode, options: Option<map<string, bool>>,
                                  before: EM.FluentValuation, after: EM.FluentValuation)
    ensures Dispatch(rec, options, before, after).invoked <==>
      && rec.Executable? && rec.action in rec.context && options.Some?
      && forall g, k :: 0 <= g < |rec.preconditions| && 0 <= k < |rec.preconditions[g].1| ==>
           && EM.EvalAst(rec.preconditions[g].1[k], before).Some?
           && (DryRun(options.value) || EM.Truthy(EM.EvalAst(rec.preconditions[g].1[k], before).value))
  {
    if rec.Executable? && rec.action in rec.context && options.Some? {
      GroupsStopSpec(rec.preconditions, 0, PreconditionVerdict(before), DryRun(options.value));
    }
  }

  /** The callback returns normally exactly when every precondition holds
      before the action and every postcondition holds after it, conditions
      that merely fail being tolerated in a dry run. */
  lemma DispatchSucceeds(rec: ExecNode, options: Option<map<string, bool>>,
                         before: EM.FluentValuation, after: EM.FluentValuation)
    requires rec.Executable? && rec.action in rec.context && options.Some?
    ensures Dispatch(rec, options, before, after).error.None? <==>
      && (forall g, k :: 0 <= g < |rec.preconditions| && 0 <= k < |rec.preconditions[g].1| ==>
            Passes(PreconditionVerdict(before)(rec.preconditions[g].1[k]), DryRun(options.value)))
      && (forall g, k :: 0 <= g < |rec.postconditions| && 0 <= k < |rec.postconditions[g].1| ==>
            Passes(PostconditionVerdict(after)(rec.postconditions[g].1[k]), DryRun(options.value)))
  {
    GroupsStopSpec(rec.preconditions, 0, PreconditionVerdict(before), DryRun(options.value));
    GroupsStopSpec(rec.postconditions, 0, PostconditionVerdict(after), DryRun(options.value));
  }

  /** A dry run never raises a precondition or postcondition failure. */
  lemma DryRunNeverFailsConditions(rec: ExecNode, options: Option<map<string, bool>>,
                                   before: EM.FluentValuation, after: EM.FluentValuation)
    requires options.Some? && DryRun(options.value)
    ensures Dispatch(rec, options, before, after).error.Some? ==>
      !Dispatch(rec, options, before, after).error.value.PreconditionFailed?
      && !Dispatch(rec, options, before, after).error.value.PostconditionFailed?
  {
    if rec.Executable? && rec.action in rec.context {
      GroupsStopSpec(rec.preconditions, 0, PreconditionVerdict(before), true);
      GroupsStopSpec(rec.postconditions, 0, PostconditionVerdict(after), true);
    }
  }

  /** The number in a precondition failure is the 1-based position of the
      first interval group holding a falsy precondition, not the position of
      the condition itself. */
  lemma PreconditionFailureNumber(rec: ExecNode, options: Option<map<string, bool>>,
                                  before: EM.FluentValuation, after: EM.FluentValuation, n: nat)
    requires Dispatch(rec, options, before, after).error == Some(PreconditionFailed(n))
    ensures rec.Executable? && options.Some? && !DryRun(options.value)
    ensures 1 <= n <= |rec.preconditions|
    ensures var conds := rec.preconditions[n - 1].1;
            exists k :: 0 <= k < |conds| && PreconditionVerdict(before)(conds[k]) == Fails
    ensures forall g, k :: 0 <= g < n - 1 && 0 <= k < |rec.preconditions[g].1| ==>
              PreconditionVerdict(before)(rec.preconditions[g].1[k]) == Holds
  {
    GroupsStopSpec(rec.preconditions, 0, PreconditionVerdict(before), DryRun(options.value));
  }

  /** Two interval groups, the first with two true preconditions and the
      second with one false one: the failure names group 2, although the
      false condition is the third one. */
  lemma SecondGroupFailure(before: EM.FluentValuation, after: EM.FluentValuation)
    ensures
      var yes := EM.Constant(EM.PyBool(true));
      var no := EM.Constant(EM.PyBool(false));
      var rec := Executable("a()", "a", [], [(StartKey, [yes, yes]), (TimedKey("end"), [no])], [],
                            map["a" := ApiValue(0, None, "a")]);
      Dispatch(rec, Some(map[]), before, after) == DispatchOutcome(false, Some(PreconditionFailed(2)))
  {
    var yes := EM.Constant(EM.PyBool(true));
    var no := EM.Constant(EM.PyBool(false));
    var pres := [(StartKey, [yes, yes]), (TimedKey("end"), [no])];
    assert GroupStop(pres[1].1, 0, PreconditionVerdict(before), false) == Some(Fails);
    assert GroupStop(pres[0].1, 2, PreconditionVerdict(before), false) == None;
    assert GroupStop(pres[0].1, 1, PreconditionVerdict(before), false) == None;
    assert GroupStop(pres[0].1, 0, PreconditionVerdict(before), false) == None;
  }

  // ---------------------------------------------------------------------------
  // The dispatcher
  // ---------------------------------------------------------------------------

  class PlanDispatcher {
    var graph: Option<ExecGraph>
    var status: DispatcherStatus
    var dispatchCallback: Callback
    var replanCallback: Option<nat>
    var dispatchedPosition: nat
    var options: Option<map<string, bool>>
    /** The graph the executor was created for. */
    var executorGraph: Option<ExecGraph>

    constructor()
      ensures graph == None && status == DispatcherIdle
      ensures dispatchCallback == DefaultCallback && replanCallback == None
      ensures dispatchedPosition == 0 && options == None && executorGraph == None
    {
      graph := None;
      status := DispatcherIdle;
      dispatchCallback := DefaultCallback;
      replanCallback := None;
      dispatchedPosition := 0;
      options := None;
      executorGraph := None;
    }

    /** `execute_plan(graph, **options)`, with `execute` standing for the
        executor's `execute_action`. Returns the value the source returns, or
        the node whose missing record raises KeyError, and the nodes executed. */
    method ExecutePlan(g: ExecGraph, opts: map<string, bool>, execute: int -> ActionResult)
      returns (r: Result<bool, int>, calls: seq<int>)
      modifies this
      ensures graph == Some(g) && options == Some(opts) && executorGraph == Some(g) && dispatchedPosition == 0
      ensures dispatchCallback == old(dispatchCallback) && replanCallback == old(replanCallback)
      ensures calls == Steps(g.nodes[..FirstBare(g.nodes, g.attrs)], g.attrs)
      ensures r.Err? <==> FirstBare(g.nodes, g.attrs) < |g.nodes|
      ensures r.Err? ==> r.error == g.nodes[FirstBare(g.nodes, g.attrs)]
      ensures r.Ok? ==> (r.value <==> AllPass(calls, execute))
      ensures r.Ok? ==> status == if r.value then DispatcherFinished else DispatcherFailed
      ensures r.Err? ==> status == if AllPass(calls, execute) then DispatcherStarted else DispatcherFailed
    {
      status := DispatcherStarted;
      graph := Some(g);
      dispatchedPosition := 0;
      options := Some(opts);
      executorGraph := Some(g);
      var bare, failed;
      bare, calls, failed := RunNodes(g, execute);
      if failed {
        status := DispatcherFailed;
      }
      if bare.Some? {
        r := Err(bare.value);
        return;
      }
      if status != DispatcherFailed {
        status := DispatcherFinished;
        r := Ok(true);
      } else {
        r := Ok(false);
      }
    }

    /** `set_dispatch_callback`. */
    method SetDispatchCallback(cb: Callback)
      modifies this
      ensures dispatchCallback == cb
      ensures graph == old(graph) && status == old(status) && replanCallback == old(replanCallback)
      ensures dispatchedPosition == old(dispatchedPosition) && options == old(options)
      ensures executorGraph == old(executorGraph)
    {
      dispatchCallback := cb;
    }

    /** `set_replan_callback`. */
    method SetReplanCallback(cb: nat)
      modifies this
      ensures replanCallback == Some(cb)
      ensures graph == old(graph) && status == old(status) && dispatchCallback == old(dispatchCallback)
      ensures dispatchedPosition == old(dispatchedPosition) && options == old(options)
      ensures executorGraph == old(executorGraph)
    {
      replanCallback := Some(cb);
    }

    /** `status()`. */
    function CurrentStatus(): (s: DispatcherStatus)
      reads this
      ensures s == status
    {
      status
    }

    /** `_default_dispatch_cb` for the record `rec`, with the options of the
        last run. */
    method DefaultDispatch(rec: ExecNode, before: EM.FluentValuation, after: EM.FluentValuation)
      returns (outcome: DispatchOutcome)
      ensures outcome == Dispatch(rec, options, before, after)
    {
      if rec.Untouched? {
        return DispatchOutcome(false, Some(MissingKey("context")));
      }
      if rec.action !in rec.context {
        return DispatchOutcome(false, Some(MissingKey(rec.action)));
      }
      if options.None? {
        return DispatchOutcome(false, Some(NoOptions));
      }
      var dry := DryRun(options.value);
      var stop := CheckGroups(rec.preconditions, PreconditionVerdict(before), dry);
      if stop.Some? {
        return DispatchOutcome(false, Some(ConditionError(stop.value, true)));
      }
      stop := CheckGroups(rec.postconditions, PostconditionVerdict(after), dry);
      if stop.Some? {
        return DispatchOutcome(true, Some(ConditionError(stop.value, false)));
      }
      return DispatchOutcome(true, None);
    }
  }

  /** The node loop of `execute_plan`: every node with a record whose action
      is not "start" or "end" is executed in turn, a failed result marks the
      run failed without stopping it, and a node without a record ends the
      loop (KeyError). */
  method RunNodes(g: ExecGraph, execute: int -> ActionResult)
    returns (bare: Option<int>, calls: seq<int>, failed: bool)
    ensures calls == Steps(g.nodes[..FirstBare(g.nodes, g.attrs)], g.attrs)
    ensures bare.Some? <==> FirstBare(g.nodes, g.attrs) < |g.nodes|
    ensures bare.Some? ==> bare.value == g.nodes[FirstBare(g.nodes, g.attrs)]
    ensures failed <==> !AllPass(calls, execute)
  {
    calls := [];
    failed := false;
    var i := 0;
    while i < |g.nodes|
      invariant 0 <= i <= |g.nodes|
      invariant forall j :: 0 <= j < i ==> g.nodes[j] in g.attrs
      invariant calls == Steps(g.nodes[..i], g.attrs)
      invariant failed <==> !AllPass(calls, execute)
    {
      var n := g.nodes[i];
      if n !in g.attrs {
        FirstBareAt(g.nodes, g.attrs, i);
        return Some(n), calls, failed;
      }
      assert g.nodes[..i + 1][..i] == g.nodes[..i];
      if !IsSentinelRecord(g.attrs[n]) {
        var res := execute(n);
        AllPassSnoc(calls, n, execute);
        calls := calls + [n];
        if !CheckResult(res) {
          failed := true;
        }
      }
      i := i + 1;
    }
    assert g.nodes[..i] == g.nodes;
    FirstBareAt(g.nodes, g.attrs, i);
    return None, calls, failed;
  }

  /** The nested loops of the callback over the interval groups and their
      conditions, stopping at the first condition that does not pass. */
  method CheckGroups<T>(groups: PyDict.Dict<IntervalKey, seq<T>>, verdict: T -> Verdict, dryRun: bool)
    returns (stop: Option<(nat, Verdict)>)
    ensures stop == GroupsStop(groups, 0, verdict, dryRun)
  {
    var i := 0;
    while i < |groups|
      invariant 0 <= i <= |groups|
      invariant GroupsStop(groups, 0, verdict, dryRun) == GroupsStop(groups, i, verdict, dryRun)
    {
      var conds := groups[i].1;
      var j := 0;
      while j < |conds|
        invariant 0 <= j <= |conds|
        invariant GroupStop(conds, 0, verdict, dryRun) == GroupStop(conds, j, verdict, dryRun)
      {
        var v := verdict(conds[j]);
        if !Passes(v, dryRun) {
          return Some((i + 1, v));
        }
        j := j + 1;
      }
      i := i + 1;
    }
    return None;
  }
}
