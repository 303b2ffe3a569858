/** The older dispatcher of sequential plans (up_bridge/plexmo/dispatcher.py).
    It hands the plan's actions one at a time to a dispatch callback. A
    failed action triggers at most one replanning between two successes
    (and never twice in a row for the same action); a successful action
    named "!replan" starts the plan over.

    The callbacks are outside the model: the dispatch callback is the
    function giving the result of its n-th call on an action, the replan
    callback the function giving the plan (or None) of its n-th call. The
    counts of calls made so far are kept with the dispatcher. Two actions
    are the same action when they are the same object, i.e. have the same
    `uid`. The loop need not end (a succeeding "!replan" restarts it
    forever), so a run is given a bound on its iterations. */
module LegacyDispatch {
  import opened Wrappers
  import opened Plans

  datatype Status = Idle | Executing | Failure | Finished

  /** The text `status()` returns. */
  function StatusText(s: Status): (t: string)
    ensures (t == "finished") <==> s == Finished
    ensures (t == "failure") <==> s == Failure
  {
    match s
    case Idle => "idle"
    case Executing => "executing"
    case Failure => "failure"
    case Finished => "finished"
  }

  type DispatchCallback = (nat, ActionInstance) -> bool
  type ReplanCallback = nat -> Option<seq<ActionInstance>>

  /** The variables of one run of `execute_plan`, with the numbers of
      callback calls made so far. */
  datatype RunState = RunState(
    plan: seq<ActionInstance>,
    position: nat,
    status: Status,
    replanned: bool,
    lastFailed: Option<nat>,
    dispatched: nat,
    replans: nat)

  /** The loop condition. */
  predicate Continues(st: RunState)
  {
    st.position < |st.plan| && st.status != Failure
  }

  /** One iteration of the loop, with the dispatch callback set. */
  function StepRun(st: RunState, dispatch: DispatchCallback, replan: Option<ReplanCallback>): RunState
    requires Continues(st)
  {
    var current := st.plan[st.position];
    var ok := dispatch(st.dispatched, current);
    var called := st.(dispatched := st.dispatched + 1);
    if !ok then
      if st.lastFailed != Some(current.uid) then
        var marked := called.(lastFailed := Some(current.uid));
        if !st.replanned && replan.Some? then
          var asked := marked.(replans := st.replans + 1);
          match replan.value(st.replans)
          case Some(p) => asked.(plan := p, position := 0, replanned := true)
          case None => asked.(status := Failure)
        else marked.(status := Failure)
      else called.(status := Failure)
    else
      var cleared := called.(replanned := false, lastFailed := if st.lastFailed == Some(current.uid) then None else st.lastFailed);
      if current.action.name == "!replan" then cleared.(position := 0)
      else cleared.(position := st.position + 1)
  }

  /** How a run of the loop ends: the loop condition fails; the dispatch
      callback is missing, and calling None raises; or the bound on
      iterations is reached first. */
  datatype RunEnd =
    | Ended(state: RunState)
    | CallbackMissing(state: RunState)
    | Unfinished(state: RunState)

  function Run(st: RunState, dispatch: Option<DispatchCallback>, replan: Option<ReplanCallback>, fuel: nat): RunEnd
    decreases fuel
  {
    if !Continues(st) then Ended(st)
    else if dispatch.None? then CallbackMissing(st)
    else if fuel == 0 then Unfinished(st)
    else Run(StepRun(st, dispatch.value, replan), dispatch, replan, fuel - 1)
  }

  /** One iteration, when the loop goes on and the callback is set. */
  lemma RunStep(st: RunState, dispatch: DispatchCallback, replan: Option<ReplanCallback>, fuel: nat)
    requires Continues(st) && fuel > 0
    ensures Run(st, Some(dispatch), replan, fuel) == Run(StepRun(st, dispatch, replan), Some(dispatch), replan, fuel - 1)
  {
  }

  /** The state `execute_plan` starts from. */
  function Start(plan: seq<ActionInstance>, dispatched: nat, replans: nat): RunState
  {
    RunState(plan, 0, Executing, false, None, dispatched, replans)
  }

  /** What `execute_plan` returns, or that it raises, or that the bound was
      reached. */
  datatype Outcome = Returned(ok: bool) | Raised | Unbounded

  /** A failed action replans only when it is not the action that failed
      last, no replanning happened since the last success and a replan
      callback is set; a replan giving a plan restarts at its beginning;
      any other failure is final. */
  lemma FailureRule(st: RunState, dispatch: DispatchCallback, replan: Option<ReplanCallback>)
    requires Continues(st) && !dispatch(st.dispatched, st.plan[st.position])
    ensures var next := StepRun(st, dispatch, replan);
            var mayReplan := st.lastFailed != Some(st.plan[st.position].uid) && !st.replanned && replan.Some?;
            && (next.status == Failure <==> !mayReplan || replan.value(st.replans).None?)
            && (next.status != Failure ==> next.plan == replan.value(st.replans).value && next.position == 0 && next.replanned)
            && next.lastFailed == Some(st.plan[st.position].uid)
  {
  }

  /** A success moves to the next action, or back to the first after
      "!replan", and allows a new replanning. */
  lemma SuccessRule(st: RunState, dispatch: DispatchCallback, replan: Option<ReplanCallback>)
    requires Continues(st) && dispatch(st.dispatched, st.plan[st.position])
    ensures var next := StepRun(st, dispatch, replan);
            && next.status == st.status && next.plan == st.plan && !next.replanned
            && next.position == (if st.plan[st.position].action.name == "!replan" then 0 else st.position + 1)
            && next.lastFailed != Some(st.plan[st.position].uid)
  {
  }

  /** Two failures in a row never both replan: after a replanning, the next
      failure is final. */
  lemma ReplanAtMostOnce(st: RunState, dispatch: DispatchCallback, replan: Option<ReplanCallback>)
    requires Continues(st) && !dispatch(st.dispatched, st.plan[st.position])
    requires StepRun(st, dispatch, replan).status != Failure
    ensures var next := StepRun(st, dispatch, replan);
            Continues(next) && !dispatch(next.dispatched, next.plan[next.position]) ==>
              StepRun(next, dispatch, replan).status == Failure
  {
  }

  /** With a callback that always succeeds and no "!replan" action, the
      run ends without failure once it may run as many iterations as
      actions remain. */
  lemma {:induction false} SucceedingRunEnds(st: RunState, dispatch: DispatchCallback, replan: Option<ReplanCallback>, fuel: nat)
    requires forall n, a :: dispatch(n, a)
    requires forall k :: 0 <= k < |st.plan| ==> st.plan[k].action.name != "!replan"
    requires st.status != Failure && fuel >= |st.plan| - st.position
    ensures Run(st, Some(dispatch), replan, fuel).Ended?
    ensures Run(st, Some(dispatch), replan, fuel).state.status == st.status
    decreases fuel
  {
    if Continues(st) {
      SucceedingRunEnds(StepRun(st, dispatch, replan), dispatch, replan, fuel - 1);
    }
  }

  /** With a callback that always fails, a non-empty plan fails within two
      iterations, provided a replanning never yields an empty plan. */
  lemma FailingRunFails(plan: seq<ActionInstance>, dispatch: DispatchCallback, replan: Option<ReplanCallback>, dispatched: nat, replans: nat, fuel: nat)
    requires forall n, a :: !dispatch(n, a)
    requires replan.Some? ==> forall n :: replan.value(n) != Some([])
    requires |plan| > 0 && fuel >= 2
    ensures Run(Start(plan, dispatched, replans), Some(dispatch), replan, fuel).Ended?
    ensures Run(Start(plan, dispatched, replans), Some(dispatch), replan, fuel).state.status == Failure
  {
    var st := Start(plan, dispatched, replans);
    var next := StepRun(st, dispatch, replan);
    assert Run(st, Some(dispatch), replan, fuel) == Run(next, Some(dispatch), replan, fuel - 1);
    if next.status != Failure {
      assert next.replanned && |next.plan| > 0;
      var last := StepRun(next, dispatch, replan);
      assert last.status == Failure;
      assert Run(next, Some(dispatch), replan, fuel - 1) == Run(last, Some(dispatch), replan, fuel - 2);
    }
  }

  /** `SequentialPlanDispatcher`. */
  class SequentialPlanDispatcher {
    var plan: Option<seq<ActionInstance>>
    var status: Status
    var position: nat
    var dispatchCallback: Option<DispatchCallback>
    var replanCallback: Option<ReplanCallback>
    /** The numbers of calls made so far to the callbacks. */
    var dispatched: nat
    var replans: nat

    constructor ()
      ensures plan == None && status == Idle && position == 0
      ensures dispatchCallback == None && replanCallback == None
      ensures dispatched == 0 && replans == 0
    {
      plan := None;
      status := Idle;
      position := 0;
      dispatchCallback := None;
      replanCallback := None;
      dispatched := 0;
      replans := 0;
    }

    /** `set_dispatch_callback`. */
    method SetDispatchCallback(callback: DispatchCallback)
      modifies this
      ensures dispatchCallback == Some(callback) && dispatched == 0
      ensures plan == old(plan) && status == old(status) && position == old(position)
      ensures replanCallback == old(replanCallback) && replans == old(replans)
    {
      dispatchCallback := Some(callback);
      dispatched := 0;
    }

    /** `set_replan_callback`. */
    method SetReplanCallback(callback: ReplanCallback)
      modifies this
      ensures replanCallback == Some(callback) && replans == 0
      ensures plan == old(plan) && status == old(status) && position == old(position)
      ensures dispatchCallback == old(dispatchCallback) && dispatched == old(dispatched)
    {
      replanCallback := Some(callback);
      replans := 0;
    }

    /** `status()`. */
    function StatusOf(): (t: string)
      reads this
      ensures t == StatusText(status)
    {
      StatusText(status)
    }

    /** The run's variables, with the locals `replanned` and
        `last_failed_action` of `execute_plan`. */
    function State(replanned: bool, lastFailed: Option<nat>): RunState
      reads this
      requires plan.Some?
    {
      RunState(plan.value, position, status, replanned, lastFailed, dispatched, replans)
    }

    /** One iteration of the loop of `execute_plan`. */
    method DispatchNext(replanned: bool, lastFailed: Option<nat>) returns (replanned': bool, lastFailed': Option<nat>)
      requires plan.Some? && dispatchCallback.Some? && Continues(State(replanned, lastFailed))
      modifies this
      ensures plan.Some?
      ensures dispatchCallback == old(dispatchCallback) && replanCallback == old(replanCallback)
      ensures State(replanned', lastFailed') == StepRun(old(State(replanned, lastFailed)), dispatchCallback.value, replanCallback)
    {
      ghost var next := StepRun(State(replanned, lastFailed), dispatchCallback.value, replanCallback);
      replanned', lastFailed' := replanned, lastFailed;
      var action := plan.value[position];
      var ok := dispatchCallback.value(dispatched, action);
      dispatched := dispatched + 1;
      if !ok {
        if lastFailed' != Some(action.uid) {
          lastFailed' := Some(action.uid);
          if !replanned' && replanCallback.Some? {
            var newPlan := replanCallback.value(replans);
            replans := replans + 1;
            if newPlan.Some? {
              plan := newPlan;
              position := 0;
              replanned' := true;
              return;
            }
          }
        }
        status := Failure;
      } else {
        replanned' := false;
        if lastFailed' == Some(action.uid) {
          lastFailed' := None;
        }
        if plan.value[position].action.name == "!replan" {
          position := 0;
        } else {
          position := position + 1;
        }
      }
    }

    /** `execute_plan(plan)`, running at most `fuel` iterations. */
    method ExecutePlan(p: seq<ActionInstance>, fuel: nat) returns (r: Outcome)
      modifies this
      ensures dispatchCallback == old(dispatchCallback) && replanCallback == old(replanCallback)
      ensures var end := Run(Start(p, old(dispatched), old(replans)), dispatchCallback, replanCallback, fuel);
              && plan == Some(end.state.plan) && position == end.state.position
              && dispatched == end.state.dispatched && replans == end.state.replans
              && (end.Ended? ==> r == Returned(end.state.status != Failure) && status == (if end.state.status == Failure then Failure else Finished))
              && (end.CallbackMissing? ==> r == Raised && status == Executing)
              && (end.Unfinished? ==> r == Unbounded && status == end.state.status)
      ensures r == Returned(true) <==> status == Finished
      ensures r == Returned(false) <==> status == Failure
    {
      ghost var end := Run(Start(p, dispatched, replans), dispatchCallback, replanCallback, fuel);
      status := Executing;
      plan := Some(p);
      position := 0;
      var replanned := false;
      var lastFailed: Option<nat> := None;
      var left := fuel;
      while position < |plan.value| && status != Failure
        invariant plan.Some?
        invariant status == Executing || status == Failure
        invariant dispatchCallback == old(dispatchCallback) && replanCallback == old(replanCallback)
        invariant end == Run(State(replanned, lastFailed), dispatchCallback, replanCallback, left)
        decreases left
      {
        if dispatchCallback.None? {
          return Raised;
        }
        if left == 0 {
          return Unbounded;
        }
        RunStep(State(replanned, lastFailed), dispatchCallback.value, replanCallback, left);
        replanned, lastFailed := DispatchNext(replanned, lastFailed);
        left := left - 1;
      }
      if status != Failure {
        status := Finished;
        return Returned(true);
      }
      return Returned(false);
    }
  }
}
