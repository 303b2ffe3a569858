/** `ActionDefinition` (up_esb/components/actions.py): an action with ordered
    lists of precondition and effect checks, run before the action itself.
    A check is a callable, the value it must return and its keyword
    arguments; calling a callable is the oracle `call`, given the callable,
    the `expected_value` keyword and the other keyword arguments. */
module ActionDefinitions {
  import opened Wrappers

  datatype Check<V> = Check(callable: nat, expected: V, args: map<string, V>)

  /** How a check fails: its callable returned another value (the assertion
      fails), or its keyword arguments already hold `expected_value`, which
      Python rejects as a repeated keyword (TypeError). */
  datatype FailureKind = Mismatch | RepeatedKeyword
  datatype CheckFailure = CheckFailure(index: nat, kind: FailureKind)

  type Oracle<!V> = (nat, V, map<string, V>) -> V

  /** A check passes: it can be called, and returns its expected value. */
  predicate Passes<V(==)>(c: Check<V>, call: Oracle<V>)
  {
    "expected_value" !in c.args && call(c.callable, c.expected, c.args) == c.expected
  }

  /** `_check_preconditions` and `_execute_effects` over a list: run the
      checks in order; the first that fails raises; otherwise the result is
      whether there was any check at all. */
  method RunChecks<V(==)>(checks: seq<Check<V>>, call: Oracle<V>) returns (r: Result<bool, CheckFailure>)
    ensures r.Ok? <==> forall i :: 0 <= i < |checks| ==> Passes(checks[i], call)
    ensures r.Ok? ==> (r.value <==> |checks| > 0)
    ensures r.Err? ==> r.error.index < |checks| && !Passes(checks[r.error.index], call)
    ensures r.Err? ==> forall i :: 0 <= i < r.error.index ==> Passes(checks[i], call)
    ensures r.Err? ==> (r.error.kind == RepeatedKeyword <==> "expected_value" in checks[r.error.index].args)
  {
    var ret := false;
    var i := 0;
    while i < |checks|
      invariant 0 <= i <= |checks|
      invariant forall j :: 0 <= j < i ==> Passes(checks[j], call)
      invariant ret <==> i > 0
    {
      var c := checks[i];
      if "expected_value" in c.args {
        return Err(CheckFailure(i, RepeatedKeyword));
      }
      if call(c.callable, c.expected, c.args) != c.expected {
        return Err(CheckFailure(i, Mismatch));
      }
      ret := true;
      i := i + 1;
    }
    return Ok(ret);
  }

  /** The static checks with their `None` default: no list is an empty list. */
  method RunOptionalChecks<V(==)>(checks: Option<seq<Check<V>>>, call: Oracle<V>) returns (r: Result<bool, CheckFailure>)
    ensures checks.None? ==> r == Ok(false)
    ensures checks.Some? ==> (r.Ok? <==> forall i :: 0 <= i < |checks.value| ==> Passes(checks.value[i], call))
    ensures checks.Some? && r.Ok? ==> (r.value <==> |checks.value| > 0)
  {
    if checks.None? {
      return Ok(false);
    }
    r := RunChecks(checks.value, call);
  }

  /** Why calling an action raises. */
  datatype CallError = PreconditionFailed(failure: CheckFailure) | EffectFailed(failure: CheckFailure) | NotImplemented

  class ActionDefinition<V(==)> {
    var name: string
    var parameters: map<string, V>
    var preconditions: seq<Check<V>>
    var effects: seq<Check<V>>
    var duration: real
    /** The callable the action runs, by token; subclasses or callers set it. */
    var executable: Option<nat>

    constructor (name: string, parameters: map<string, V>)
      ensures this.name == name && this.parameters == parameters
      ensures preconditions == [] && effects == [] && duration == 0.0 && executable == None
    {
      this.name := name;
      this.parameters := parameters;
      preconditions := [];
      effects := [];
      duration := 0.0;
      executable := None;
    }

    /** `add_preconditions`: the list is replaced. */
    method AddPreconditions(checks: seq<Check<V>>)
      modifies this
      ensures preconditions == checks
      ensures name == old(name) && parameters == old(parameters) && effects == old(effects)
      ensures duration == old(duration) && executable == old(executable)
    {
      preconditions := checks;
    }

    /** `add_effects`: the list is replaced. */
    method AddEffects(checks: seq<Check<V>>)
      modifies this
      ensures effects == checks
      ensures name == old(name) && parameters == old(parameters) && preconditions == old(preconditions)
      ensures duration == old(duration) && executable == old(executable)
    {
      effects := checks;
    }

    /** `add_precondition`: one check appended. */
    method AddPrecondition(callable: nat, output: V, args: map<string, V>)
      modifies this
      ensures preconditions == old(preconditions) + [Check(callable, output, args)]
      ensures name == old(name) && parameters == old(parameters) && effects == old(effects)
      ensures duration == old(duration) && executable == old(executable)
    {
      preconditions := preconditions + [Check(callable, output, args)];
    }

    /** `add_effect`: one check appended. */
    method AddEffect(callable: nat, output: V, args: map<string, V>)
      modifies this
      ensures effects == old(effects) + [Check(callable, output, args)]
      ensures name == old(name) && parameters == old(parameters) && preconditions == old(preconditions)
      ensures duration == old(duration) && executable == old(executable)
    {
      effects := effects + [Check(callable, output, args)];
    }

    /** `set_duration`: the duration and nothing else. */
    method SetDuration(d: real)
      modifies this
      ensures duration == d
      ensures name == old(name) && parameters == old(parameters) && preconditions == old(preconditions)
      ensures effects == old(effects) && executable == old(executable)
    {
      duration := d;
    }

    /** `__call__`: preconditions, then effects, then the action; the
        missing action raises NotImplementedError only once every check has
        passed. */
    method Call(call: Oracle<V>) returns (r: Result<nat, CallError>)
      ensures r.Err? && r.error.PreconditionFailed? <==> exists i :: 0 <= i < |preconditions| && !Passes(preconditions[i], call)
      ensures r.Err? && r.error.EffectFailed? <==>
                (forall i :: 0 <= i < |preconditions| ==> Passes(preconditions[i], call))
                && exists i :: 0 <= i < |effects| && !Passes(effects[i], call)
      ensures r == Err(NotImplemented) <==>
                (forall i :: 0 <= i < |preconditions| ==> Passes(preconditions[i], call))
                && (forall i :: 0 <= i < |effects| ==> Passes(effects[i], call))
                && executable.None?
      ensures r.Ok? ==> executable == Some(r.value)
    {
      var pre := RunChecks(preconditions, call);
      if pre.Err? {
        return Err(PreconditionFailed(pre.error));
      }
      var eff := RunChecks(effects, call);
      if eff.Err? {
        return Err(EffectFailed(eff.error));
      }
      if executable.None? {
        return Err(NotImplemented);
      }
      return Ok(executable.value);
    }
  }
}
