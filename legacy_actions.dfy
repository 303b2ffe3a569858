/** The older `ActionDefinition` (up_bridge/components/actions.py). Its
    check lists behave as in the newer class and share its check runner;
    it has no `None` default for the check lists and no guard for a missing
    action. */
module LegacyActionDefinitions {
  import opened Wrappers
  import A = ActionDefinitions

  /** Why calling an action raises. */
  datatype CallError = PreconditionFailed(failure: A.CheckFailure) | EffectFailed(failure: A.CheckFailure) | NoneNotCallable

  class ActionDefinition<V(==)> {
    var name: string
    var parameters: map<string, V>
    var preconditions: seq<A.Check<V>>
    var effects: seq<A.Check<V>>
    var duration: real
    /** The callable the action runs, by token; callers set it. */
    var executable: Option<nat>

    constructor (name: string, parameters: map<string, V>)
      ensures this.name == name && this.parameters == parameters
      ensures preconditions == [] && effects == [] && duration == 0.0 && executable == None
    {
      this.name := name;
      this.parameters := parameters;
      preconditions := [];
      effects := [];
      duration := 0.0;
      executable := None;
    }

    /** `add_preconditions`: the list is replaced. */
    method AddPreconditions(checks: seq<A.Check<V>>)
      modifies this
      ensures preconditions == checks
      ensures name == old(name) && parameters == old(parameters) && effects == old(effects)
      ensures duration == old(duration) && executable == old(executable)
    {
      preconditions := checks;
    }

    /** `add_effects`: the list is replaced. */
    method AddEffects(checks: seq<A.Check<V>>)
      modifies this
      ensures effects == checks
      ensures name == old(name) && parameters == old(parameters) && preconditions == old(preconditions)
      ensures duration == old(duration) && executable == old(executable)
    {
      effects := checks;
    }

    /** `add_precondition`: one check appended. */
    method AddPrecondition(callable: nat, output: V, args: map<string, V>)
      modifies this
      ensures preconditions == old(preconditions) + [A.Check(callable, output, args)]
      ensures name == old(name) && parameters == old(parameters) && effects == old(effects)
      ensures duration == old(duration) && executable == old(executable)
    {
      preconditions := preconditions + [A.Check(callable, output, args)];
    }

    /** `add_effect`: one check appended. */
    method AddEffect(callable: nat, output: V, args: map<string, V>)
      modifies this
      ensures effects == old(effects) + [A.Check(callable, output, args)]
      ensures name == old(name) && parameters == old(parameters) && preconditions == old(preconditions)
      ensures duration == old(duration) && executable == old(executable)
    {
      effects := effects + [A.Check(callable, output, args)];
    }

    /** `set_duration`: the duration and nothing else. */
    method SetDuration(d: real)
      modifies this
      ensures duration == d
      ensures name == old(name) && parameters == old(parameters) && preconditions == old(preconditions)
      ensures effects == old(effects) && executable == old(executable)
    {
      duration := d;
    }

    /** `__call__`: preconditions, then effects, then the action, called
        whether or not it was set: a missing action fails as a call of
        `None` (TypeError), once every check has passed. */
    method Call(call: A.Oracle<V>) returns (r: Result<nat, CallError>)
      ensures r.Err? && r.error.PreconditionFailed? <==> exists i :: 0 <= i < |preconditions| && !A.Passes(preconditions[i], call)
      ensures r.Err? && r.error.EffectFailed? <==>
                (forall i :: 0 <= i < |preconditions| ==> A.Passes(preconditions[i], call))
                && exists i :: 0 <= i < |effects| && !A.Passes(effects[i], call)
      ensures r == Err(NoneNotCallable) <==>
                (forall i :: 0 <= i < |preconditions| ==> A.Passes(preconditions[i], call))
                && (forall i :: 0 <= i < |effects| ==> A.Passes(effects[i], call))
                && executable.None?
      ensures r.Ok? ==> executable == Some(r.value)
    {
      var pre := A.RunChecks(preconditions, call);
      if pre.Err? {
        return Err(PreconditionFailed(pre.error));
      }
      var eff := A.RunChecks(effects, call);
      if eff.Err? {
        return Err(EffectFailed(eff.error));
      }
      if executable.None? {
        return Err(NoneNotCallable);
      }
      return Ok(executable.value);
    }
  }
}
