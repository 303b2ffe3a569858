/** The bridge between the application and the planning domain (class
    `Bridge` in up_esb/bridge.py): registries of the actions, objects and
    fluent functions the application defines, and the conversion of a plan
    into an executable graph whose nodes carry runtime objects and Python
    expression trees. */
module ExecutionBridge {
  import opened Wrappers
  import opened Plans
  import PyDict
  import opened DiGraph
  import opened DependencyGraph
  import opened PartialOrder
  import opened PlanGraph
  import EM = ExpressionManager

  /** A Python object of the application: a domain object, an action
      callable or a fluent function. `id` stands for its identity,
      `nameAttribute` for its `name` attribute when it has one and `text`
      for its `str()`. */
  datatype ApiValue = ApiValue(id: nat, nameAttribute: Option<string>, text: string)

  /** What a signature maps a parameter name to: a type, or, for the
      "duration" entry, a number (or `None`). */
  datatype SignatureValue = TypeValue(typeName: string) | DurationValue(duration: real) | NoneValue

  /** A planning action made by `create_action`: its name, its parameter
      names in order and, for a durative action, its fixed duration. */
  datatype CreatedAction = CreatedAction(name: string, parameters: seq<string>, fixedDuration: Option<SignatureValue>)

  /** A planning object: its name and the name of its type. */
  datatype UpObject = UpObject(name: string, typeName: string)

  /** `get_object` returns the planning object of that name, or the
      application object itself. */
  datatype ObjectLookup = Found(upObject: UpObject) | Itself(value: ApiValue)

  datatype BridgeError =
    | AlreadyExists(name: string)             // AssertionError of a registration
    | ActionNotDefined(action: string)        // ValueError: no callable registered for the action
    | ObjectNotDefined(objectName: string)        // ValueError: no application object of that name
    | ObjectKeyError(objectName: string)          // KeyError in `get_executable_action`
    | MissingRecord(node: int)                // KeyError "action" on a node without attributes
    | ConvertTypeError                        // TypeError: `convert` has no `parameters` argument
    | ConversionFailed(convertError: EM.ConvertError)
    | GraphFailed(graphError: GraphError)

  /** The record of a node of the executable graph. Nodes whose action is
      "start" or "end" are left as they are; every other node gets its
      runtime parameters, its converted conditions and effects, and the
      shared execution context. */
  datatype ExecNode =
    | Untouched(data: NodeData)
    | Executable(
        nodeName: string,
        action: string,
        parameters: PyDict.Dict<string, ApiValue>,
        preconditions: PyDict.Dict<IntervalKey, seq<EM.PyAst>>,
        postconditions: PyDict.Dict<IntervalKey, seq<(EM.PyAst, EM.PyAst)>>,
        context: map<string, ApiValue>)

  type ExecGraph = Graph<int, ExecNode>

  /** The "action" entry of a node record. */
  function RecordAction(rec: ExecNode): string
  {
    match rec
    case Untouched(data) => data.action
    case Executable(_, action, _, _, _, _) => action
  }

  /** The "node_name" entry of a node record. */
  function RecordNodeName(rec: ExecNode): string
  {
    match rec
    case Untouched(data) => data.nodeName
    case Executable(nodeName, _, _, _, _, _) => nodeName
  }

  /** The record names the "start" or "end" action. */
  predicate IsSentinelRecord(rec: ExecNode)
  {
    RecordAction(rec) == "start" || RecordAction(rec) == "end"
  }

  // ---------------------------------------------------------------------------
  // Registries
  // ---------------------------------------------------------------------------

  /** `dict(signature, **kwargs)`: the keyword arguments override entries of
      the signature in place and add the others at the end. */
  function MergeSignature(signature: PyDict.Dict<string, SignatureValue>, kwargs: PyDict.Dict<string, SignatureValue>): PyDict.Dict<string, SignatureValue>
  {
    PyDict.PutAll(signature, PyDict.Keys(kwargs), PyDict.Values(kwargs))
  }

  /** The signature `create_action` works from: the given one updated by
      the keyword arguments, or the keyword arguments alone when no (or an
      empty) signature is given. */
  function EffectiveSignature(signature: PyDict.Dict<string, SignatureValue>, kwargs: PyDict.Dict<string, SignatureValue>): PyDict.Dict<string, SignatureValue>
  {
    if signature != [] then MergeSignature(signature, kwargs) else kwargs
  }

  /** In the merged signature a keyword argument overrides the entry of the
      same name, and every other entry keeps its type. */
  lemma MergeSignatureGet(signature: PyDict.Dict<string, SignatureValue>, kwargs: PyDict.Dict<string, SignatureValue>, k: string)
    requires PyDict.DistinctKeys(kwargs)
    ensures PyDict.Get(MergeSignature(signature, kwargs), k) == if PyDict.HasKey(kwargs, k) then PyDict.Get(kwargs, k) else PyDict.Get(signature, k)
  {
    var ks := PyDict.Keys(kwargs);
    PyDict.GetPutAll(signature, ks, PyDict.Values(kwargs), k);
    if PyDict.HasKey(kwargs, k) {
      var i :| 0 <= i < |kwargs| && kwargs[i].0 == k;
      assert ks[i] == k;
      var j :| 0 <= j < |kwargs| && kwargs[j] == (k, PyDict.Get(kwargs, k).value);
      assert i == j;
    } else {
      assert k !in ks;
    }
  }

  /** The parameter names of a signature: every name but "return" and
      "duration", in order. */
  function ParameterNames(sig: PyDict.Dict<string, SignatureValue>): (ns: seq<string>)
    ensures forall n :: n in ns <==> n != "return" && n != "duration" && n in PyDict.Keys(sig)
  {
    if sig == [] then []
    else
      var front := sig[..|sig| - 1];
      var n := sig[|sig| - 1].0;
      assert PyDict.Keys(sig) == PyDict.Keys(front) + [n];
      ParameterNames(front) + (if n == "return" || n == "duration" then [] else [n])
  }

  /** The action `create_action` makes from a merged signature: durative
      with a fixed duration exactly when the signature has a "duration" that
      is not `None`. */
  function NewAction(name: string, sig: PyDict.Dict<string, SignatureValue>): (a: CreatedAction)
    ensures a.name == name && a.parameters == ParameterNames(sig)
    ensures a.fixedDuration.Some? <==> PyDict.HasKey(sig, "duration") && PyDict.Get(sig, "duration") != Some(NoneValue)
    ensures a.fixedDuration.Some? ==> PyDict.Get(sig, "duration") == Some(a.fixedDuration.value)
  {
    var duration := PyDict.Get(sig, "duration");
    CreatedAction(name, ParameterNames(sig),
      if duration.Some? && duration.value != NoneValue then duration else None)
  }

  /** The state of a registry after `for f in functions: assert f.__name__
      not in registry; registry[f.__name__] = f`, and the name whose
      assertion failed, if one did. */
  function Registered(m: map<string, ApiValue>, fs: seq<(string, ApiValue)>): (r: (map<string, ApiValue>, Option<string>))
    decreases |fs|
  {
    if fs == [] then (m, None)
    else if fs[0].0 in m then (m, Some(fs[0].0))
    else Registered(m[fs[0].0 := fs[0].1], fs[1..])
  }

  /** The loop of `set_api_actions` and `set_fluent_functions`. */
  method RegisterLoop(m0: map<string, ApiValue>, fs: seq<(string, ApiValue)>) returns (m: map<string, ApiValue>, clash: Option<string>)
    ensures (m, clash) == Registered(m0, fs)
  {
    m := m0;
    var i := 0;
    while i < |fs|
      invariant 0 <= i <= |fs|
      invariant Registered(m, fs[i..]) == Registered(m0, fs)
    {
      assert fs[i..][0] == fs[i];
      assert fs[i..][1..] == fs[i + 1..];
      var (name, fn) := fs[i];
      if name in m {
        return m, Some(name);
      }
      m := m[name := fn];
      i := i + 1;
    }
    return m, None;
  }

  /** The names to register are new and pairwise distinct. */
  predicate FreshNames(m: map<string, ApiValue>, fs: seq<(string, ApiValue)>)
  {
    (forall i :: 0 <= i < |fs| ==> fs[i].0 !in m) && (forall i, j :: 0 <= i < j < |fs| ==> fs[i].0 != fs[j].0)
  }

  /** Registration fails exactly when a name is already registered or comes
      twice. */
  lemma {:induction false} RegisteredFails(m: map<string, ApiValue>, fs: seq<(string, ApiValue)>)
    ensures Registered(m, fs).1.None? <==> FreshNames(m, fs)
    decreases |fs|
  {
    if fs != [] && fs[0].0 !in m {
      var rest := fs[1..];
      var m' := m[fs[0].0 := fs[0].1];
      RegisteredFails(m', rest);
      if FreshNames(m, fs) {
        assert forall i :: 0 <= i < |rest| ==> rest[i].0 == fs[i + 1].0 && fs[0].0 != fs[i + 1].0;
      }
      if FreshNames(m', rest) {
        forall i, j | 0 <= i < j < |fs| ensures fs[i].0 != fs[j].0 {
          assert rest[j - 1] == fs[j];
          if i > 0 {
            assert rest[i - 1] == fs[i];
          }
        }
        assert forall i :: 0 < i < |fs| ==> fs[i] == rest[i - 1];
      }
    }
  }

  /** A registration that succeeds adds exactly the given names. */
  lemma {:induction false} RegisteredKeys(m: map<string, ApiValue>, fs: seq<(string, ApiValue)>)
    requires Registered(m, fs).1.None?
    ensures Registered(m, fs).0.Keys == m.Keys + (set p | p in fs :: p.0)
    decreases |fs|
  {
    if fs != [] {
      var rest := fs[1..];
      RegisteredKeys(m[fs[0].0 := fs[0].1], rest);
      assert fs == [fs[0]] + rest;
      assert (set p | p in fs :: p.0) == {fs[0].0} + (set p | p in rest :: p.0);
    }
  }

  /** A registration that succeeds registers every function under its name
      and keeps the earlier entries. */
  lemma {:induction false} RegisteredContents(m: map<string, ApiValue>, fs: seq<(string, ApiValue)>)
    requires Registered(m, fs).1.None?
    ensures forall n :: n in m ==> n in Registered(m, fs).0 && Registered(m, fs).0[n] == m[n]
    ensures forall i :: 0 <= i < |fs| ==> fs[i].0 in Registered(m, fs).0 && Registered(m, fs).0[fs[i].0] == fs[i].1
    decreases |fs|
  {
    if fs != [] {
      var (n, f) := fs[0];
      var rest := fs[1..];
      var m' := m[n := f];
      RegisteredFails(m, fs);
      RegisteredContents(m', rest);
      forall i | 0 < i < |fs| ensures fs[i].0 in Registered(m, fs).0 && Registered(m, fs).0[fs[i].0] == fs[i].1 {
        assert rest[i - 1] == fs[i];
      }
      forall n' | n' in m ensures n' in Registered(m, fs).0 && Registered(m, fs).0[n'] == m[n'] {
        assert n' != n;
      }
    }
  }

  /** A registration that fails stops at a name that was registered or came
      earlier in the list; only the functions before it are registered. */
  lemma {:induction false} RegisteredClash(m: map<string, ApiValue>, fs: seq<(string, ApiValue)>)
    requires Registered(m, fs).1.Some?
    ensures exists k :: 0 <= k < |fs| && fs[k].0 == Registered(m, fs).1.value
              && Registered(m, fs).0 == Registered(m, fs[..k]).0
              && (fs[k].0 in m || exists j :: 0 <= j < k && fs[j].0 == fs[k].0)
    decreases |fs|
  {
    var (n, f) := fs[0];
    if n in m {
      assert fs[..0] == [];
    } else {
      var rest := fs[1..];
      var m' := m[n := f];
      RegisteredClash(m', rest);
      var k :| 0 <= k < |rest| && rest[k].0 == Registered(m', rest).1.value
             && Registered(m', rest).0 == Registered(m', rest[..k]).0
             && (rest[k].0 in m' || exists j :: 0 <= j < k && rest[j].0 == rest[k].0);
      assert fs[k + 1] == rest[k];
      assert fs[..k + 1][0] == fs[0] && fs[..k + 1][1..] == rest[..k];
      if rest[k].0 !in m {
        if rest[k].0 == n {
          assert fs[0].0 == fs[k + 1].0;
        } else {
          var j :| 0 <= j < k && rest[j].0 == rest[k].0;
          assert fs[j + 1].0 == fs[k + 1].0;
        }
      }
    }
  }

  /** The name `get_object` looks an application object up by: its `name`
      attribute, or else its `str()`. */
  function ObjectName(v: ApiValue): string
  {
    if v.nameAttribute.Some? then v.nameAttribute.value else v.text
  }

  /** The callable of the action of `a` and the application objects of its
      actual parameters, in order. */
  function LookupObjects(names: seq<string>, apiObjects: map<string, ApiValue>): (r: Result<seq<ApiValue>, BridgeError>)
    ensures r.Ok? <==> forall i :: 0 <= i < |names| ==> names[i] in apiObjects
    ensures r.Ok? ==> |r.value| == |names| && forall i :: 0 <= i < |names| ==> r.value[i] == apiObjects[names[i]]
    ensures r.Err? ==> exists k :: 0 <= k < |names| && names[k] !in apiObjects && r.error == ObjectKeyError(names[k])
                         && forall i :: 0 <= i < k ==> names[i] in apiObjects
  {
    if names == [] then Ok([])
    else if names[0] !in apiObjects then Err(ObjectKeyError(names[0]))
    else
      match LookupObjects(names[1..], apiObjects)
      case Err(e) =>
        assert forall i :: 0 <= i < |names| - 1 ==> names[1..][i] == names[i + 1];
        Err(e)
      case Ok(vs) => Ok([apiObjects[names[0]]] + vs)
  }

  /** The context every executable node shares: the application objects,
      then the action callables, then the fluent functions, each `update`
      overriding the entries of the earlier ones. */
  function Context(apiObjects: map<string, ApiValue>, apiActions: map<string, ApiValue>, fluentFunctions: map<string, ApiValue>): (ctx: map<string, ApiValue>)
    ensures ctx.Keys == apiObjects.Keys + apiActions.Keys + fluentFunctions.Keys
    ensures forall n :: n in ctx ==>
              ctx[n] == if n in fluentFunctions then fluentFunctions[n]
                        else if n in apiActions then apiActions[n]
                        else apiObjects[n]
  {
    apiObjects + apiActions + fluentFunctions
  }

  // ---------------------------------------------------------------------------
  // Conversion of one node
  // ---------------------------------------------------------------------------

  /** `exp_manager.convert(e, parameters=action_parameters)`. As written the
      call raises TypeError whatever `e` is, since `convert` takes no
      `parameters` argument; otherwise the bindings are ignored and `e` is
      translated. */
  function ConvertCall(e: Expr, asWritten: bool): Result<EM.PyAst, BridgeError>
  {
    if asWritten then Err(ConvertTypeError)
    else
      match EM.Convert(e)
      case Ok(t) => Ok(t)
      case Err(err) => Err(ConversionFailed(err))
  }

  /** An effect becomes the pair of its converted fluent and its converted
      value, the fluent converted first. */
  function ConvertEffect(eff: Effect, asWritten: bool): Result<(EM.PyAst, EM.PyAst), BridgeError>
  {
    match ConvertCall(eff.fluent, asWritten)
    case Err(e) => Err(e)
    case Ok(fluent) =>
      match ConvertCall(eff.value, asWritten)
      case Err(e) => Err(e)
      case Ok(value) => Ok((fluent, value))
  }

  function ConditionConverter(asWritten: bool): Expr -> Result<EM.PyAst, BridgeError>
  {
    e => ConvertCall(e, asWritten)
  }

  function EffectConverter(asWritten: bool): Effect -> Result<(EM.PyAst, EM.PyAst), BridgeError>
  {
    eff => ConvertEffect(eff, asWritten)
  }

  /** `[f(x) for x in xs]` where `f` may raise: the first failure wins. */
  function ConvertAll<A, B>(xs: seq<A>, f: A -> Result<B, BridgeError>): (r: Result<seq<B>, BridgeError>)
    ensures r.Ok? <==> forall i :: 0 <= i < |xs| ==> f(xs[i]).Ok?
    ensures r.Ok? ==> |r.value| == |xs| && forall i :: 0 <= i < |xs| ==> r.value[i] == f(xs[i]).value
    ensures r.Err? ==> exists k :: 0 <= k < |xs| && f(xs[k]).Err? && r.error == f(xs[k]).error
                         && forall i :: 0 <= i < k ==> f(xs[i]).Ok?
  {
    if xs == [] then Ok([])
    else
      var front := xs[..|xs| - 1];
      assert forall i :: 0 <= i < |front| ==> front[i] == xs[i];
      match ConvertAll(front, f)
      case Err(e) => Err(e)
      case Ok(ts) =>
        match f(xs[|xs| - 1])
        case Err(e) => Err(e)
        case Ok(t) => Ok(ts + [t])
  }

  /** The list already stored under `k`, or `[]`. */
  function Existing<K(==), T>(d: PyDict.Dict<K, seq<T>>, k: K): seq<T>
  {
    match PyDict.Get(d, k)
    case Some(ts) => ts
    case None => []
  }

  /** The loops over the interval-keyed condition or effect lists: for each
      interval, the list stored so far (or `[]`) extended by the converted
      entries, in order. */
  function ConvertEntries<A, B>(src: PyDict.Dict<IntervalKey, seq<A>>, f: A -> Result<B, BridgeError>): Result<PyDict.Dict<IntervalKey, seq<B>>, BridgeError>
    decreases |src|
  {
    if src == [] then Ok([])
    else
      var front := src[..|src| - 1];
      var (k, xs) := src[|src| - 1];
      match ConvertEntries(front, f)
      case Err(e) => Err(e)
      case Ok(d) => ExtendEntry(d, k, xs, f)
  }

  /** One interval of those loops: the entries converted and appended to the
      list stored so far under the interval, or the first failure. */
  function ExtendEntry<A, B>(d: PyDict.Dict<IntervalKey, seq<B>>, k: IntervalKey, xs: seq<A>, f: A -> Result<B, BridgeError>): Result<PyDict.Dict<IntervalKey, seq<B>>, BridgeError>
  {
    match ConvertAll(xs, f)
    case Err(e) => Err(e)
    case Ok(ts) => Ok(PyDict.Put(d, k, Existing(d, k) + ts))
  }

  /** `parameters[param] = api_objects[str(actual)]` for every binding, an
      unregistered object raising ValueError. */
  function ResolveParameters(bindings: PyDict.Dict<string, string>, apiObjects: map<string, ApiValue>): (r: Result<PyDict.Dict<string, ApiValue>, BridgeError>)
    ensures r.Ok? <==> forall i :: 0 <= i < |bindings| ==> bindings[i].1 in apiObjects
    ensures r.Err? ==> exists k :: 0 <= k < |bindings| && bindings[k].1 !in apiObjects
                         && r.error == ObjectNotDefined(bindings[k].1)
                         && forall i :: 0 <= i < k ==> bindings[i].1 in apiObjects
  {
    if bindings == [] then Ok([])
    else
      var front := bindings[..|bindings| - 1];
      var (formal, actual) := bindings[|bindings| - 1];
      assert forall i :: 0 <= i < |front| ==> front[i] == bindings[i];
      match ResolveParameters(front, apiObjects)
      case Err(e) => Err(e)
      case Ok(d) =>
        if actual !in apiObjects then Err(ObjectNotDefined(actual))
        else Ok(PyDict.Put(d, formal, apiObjects[actual]))
  }

  /** The lists convert exactly when every entry of every interval
      converts. */
  lemma {:induction false} ConvertEntriesOk<A, B>(src: PyDict.Dict<IntervalKey, seq<A>>, f: A -> Result<B, BridgeError>)
    ensures ConvertEntries(src, f).Ok? <==> forall i :: 0 <= i < |src| ==> ConvertAll(src[i].1, f).Ok?
    decreases |src|
  {
    if src != [] {
      var n := |src| - 1;
      var front := src[..n];
      assert forall i :: 0 <= i < n ==> front[i] == src[i];
      ConvertEntriesOk(front, f);
    }
  }

  /** A failure is the failure of one of the entries. */
  lemma {:induction false} ConvertEntriesError<A, B>(src: PyDict.Dict<IntervalKey, seq<A>>, f: A -> Result<B, BridgeError>)
    requires ConvertEntries(src, f).Err?
    ensures exists i :: 0 <= i < |src| && ConvertAll(src[i].1, f).Err? && ConvertEntries(src, f).error == ConvertAll(src[i].1, f).error
    decreases |src|
  {
    var n := |src| - 1;
    var front := src[..n];
    if ConvertEntries(front, f).Err? {
      ConvertEntriesError(front, f);
      var i :| 0 <= i < |front| && ConvertAll(front[i].1, f).Err? && ConvertEntries(front, f).error == ConvertAll(front[i].1, f).error;
      assert front[i] == src[i];
    }
  }

  /** With distinct intervals (as in every Python dict) each interval keeps
      its place and gets its entries converted one by one, in order. */
  lemma {:induction false} ConvertEntriesShape<A, B>(src: PyDict.Dict<IntervalKey, seq<A>>, f: A -> Result<B, BridgeError>)
    requires PyDict.DistinctKeys(src)
    ensures ConvertEntries(src, f).Ok? ==>
              |ConvertEntries(src, f).value| == |src|
              && forall i :: 0 <= i < |src| ==>
                   ConvertAll(src[i].1, f).Ok? && ConvertEntries(src, f).value[i] == (src[i].0, ConvertAll(src[i].1, f).value)
    decreases |src|
  {
    if src != [] && ConvertEntries(src, f).Ok? {
      var n := |src| - 1;
      var front := src[..n];
      var (k, xs) := src[n];
      assert forall i :: 0 <= i < n ==> front[i] == src[i];
      ConvertEntriesShape(front, f);
      var d := ConvertEntries(front, f).value;
      var ts := ConvertAll(xs, f).value;
      assert forall i :: 0 <= i < |d| ==> d[i].0 == src[i].0 && src[i].0 != k;
      assert !PyDict.HasKey(d, k);
      ExtendNew(d, k, xs, f);
      var r := d + [(k, ts)];
      assert ConvertEntries(src, f) == Ok(r);
      assert forall i :: 0 <= i < n ==>
               ConvertAll(src[i].1, f).Ok? && d[i] == (src[i].0, ConvertAll(src[i].1, f).value);
      ConvertedSnoc(src, d, f);
    }
  }

  /** The last entry converted after the others. */
  lemma ConvertedSnoc<A, B>(src: PyDict.Dict<IntervalKey, seq<A>>, d: PyDict.Dict<IntervalKey, seq<B>>, f: A -> Result<B, BridgeError>)
    requires |src| == |d| + 1 && ConvertAll(src[|d|].1, f).Ok?
    requires forall i :: 0 <= i < |d| ==>
               ConvertAll(src[i].1, f).Ok? && d[i] == (src[i].0, ConvertAll(src[i].1, f).value)
    ensures var r := d + [(src[|d|].0, ConvertAll(src[|d|].1, f).value)];
            forall i :: 0 <= i < |src| ==>
              ConvertAll(src[i].1, f).Ok? && r[i] == (src[i].0, ConvertAll(src[i].1, f).value)
  {
  }

  /** An interval not yet stored gets a new entry at the end. */
  lemma ExtendNew<A, B>(d: PyDict.Dict<IntervalKey, seq<B>>, k: IntervalKey, xs: seq<A>, f: A -> Result<B, BridgeError>)
    requires !PyDict.HasKey(d, k) && ConvertAll(xs, f).Ok?
    ensures ExtendEntry(d, k, xs, f) == Ok(d + [(k, ConvertAll(xs, f).value)])
  {
    var ts := ConvertAll(xs, f).value;
    assert Existing(d, k) + ts == ts;
    PyDict.PutSpec(d, k, ts);
  }

  /** With distinct formal names each formal keeps its place and is bound to
      the registered object its actual parameter names. */
  lemma {:induction false} ResolveParametersShape(bindings: PyDict.Dict<string, string>, apiObjects: map<string, ApiValue>)
    requires PyDict.DistinctKeys(bindings)
    ensures ResolveParameters(bindings, apiObjects).Ok? ==>
              |ResolveParameters(bindings, apiObjects).value| == |bindings|
              && forall i :: 0 <= i < |bindings| ==>
                   ResolveParameters(bindings, apiObjects).value[i] == (bindings[i].0, apiObjects[bindings[i].1])
    decreases |bindings|
  {
    if bindings != [] && ResolveParameters(bindings, apiObjects).Ok? {
      var n := |bindings| - 1;
      var front := bindings[..n];
      var (formal, actual) := bindings[n];
      assert forall i :: 0 <= i < n ==> front[i] == bindings[i];
      ResolveParametersShape(front, apiObjects);
      var d := ResolveParameters(front, apiObjects).value;
      assert !PyDict.HasKey(d, formal);
      PyDict.PutSpec(d, formal, apiObjects[actual]);
    }
  }

  predicate IsSentinel(data: NodeData)
  {
    data.action == "start" || data.action == "end"
  }

  /** What the node loop of `get_executable_graph` makes of one node record. */
  function ResolveNode(data: NodeData, apiActions: map<string, ApiValue>, apiObjects: map<string, ApiValue>,
                       ctx: map<string, ApiValue>, asWritten: bool): Result<ExecNode, BridgeError>
  {
    if IsSentinel(data) then Ok(Untouched(data))
    else if data.action !in apiActions then Err(ActionNotDefined(data.action))
    else
      match ResolveParameters(data.parameters, apiObjects)
      case Err(e) => Err(e)
      case Ok(params) =>
        match ConvertEntries(data.preconditions, ConditionConverter(asWritten))
        case Err(e) => Err(e)
        case Ok(pres) =>
          match ConvertEntries(data.postconditions, EffectConverter(asWritten))
          case Err(e) => Err(e)
          case Ok(posts) => Ok(Executable(data.nodeName, data.action, params, pres, posts, ctx))
  }

  /** Every condition of the record translates. */
  predicate ConditionsConvert(data: NodeData)
  {
    forall i, j :: 0 <= i < |data.preconditions| && 0 <= j < |data.preconditions[i].1| ==>
      EM.Convert(data.preconditions[i].1[j]).Ok?
  }

  /** The fluent and the value of every effect of the record translate. */
  predicate EffectsConvert(data: NodeData)
  {
    forall i, j :: 0 <= i < |data.postconditions| && 0 <= j < |data.postconditions[i].1| ==>
      EM.Convert(data.postconditions[i].1[j].fluent).Ok? && EM.Convert(data.postconditions[i].1[j].value).Ok?
  }

  lemma ConditionsConvertIff(data: NodeData)
    ensures ConvertEntries(data.preconditions, ConditionConverter(false)).Ok? <==> ConditionsConvert(data)
  {
    var conv := ConditionConverter(false);
    ConvertEntriesOk(data.preconditions, conv);
    if ConditionsConvert(data) {
      forall i | 0 <= i < |data.preconditions| ensures ConvertAll(data.preconditions[i].1, conv).Ok? {
        assert forall j :: 0 <= j < |data.preconditions[i].1| ==> conv(data.preconditions[i].1[j]).Ok?;
      }
    }
  }

  lemma EffectsConvertIff(data: NodeData)
    ensures ConvertEntries(data.postconditions, EffectConverter(false)).Ok? <==> EffectsConvert(data)
  {
    var convEff := EffectConverter(false);
    ConvertEntriesOk(data.postconditions, convEff);
    if EffectsConvert(data) {
      forall i | 0 <= i < |data.postconditions| ensures ConvertAll(data.postconditions[i].1, convEff).Ok? {
        assert forall j :: 0 <= j < |data.postconditions[i].1| ==> convEff(data.postconditions[i].1[j]).Ok?;
      }
    }
  }

  /** Sentinels are left as they are; any other node resolves exactly when
      its action is registered, every actual parameter names a registered
      object and every condition and effect translates. */
  lemma ResolveNodeOk(data: NodeData, apiActions: map<string, ApiValue>, apiObjects: map<string, ApiValue>, ctx: map<string, ApiValue>)
    ensures IsSentinel(data) ==> ResolveNode(data, apiActions, apiObjects, ctx, false) == Ok(Untouched(data))
    ensures !IsSentinel(data) ==>
              (ResolveNode(data, apiActions, apiObjects, ctx, false).Ok? <==>
                 && data.action in apiActions
                 && (forall i :: 0 <= i < |data.parameters| ==> data.parameters[i].1 in apiObjects)
                 && ConditionsConvert(data)
                 && EffectsConvert(data))
    ensures !IsSentinel(data) && data.action !in apiActions ==>
              ResolveNode(data, apiActions, apiObjects, ctx, false) == Err(ActionNotDefined(data.action))
  {
    ConditionsConvertIff(data);
    EffectsConvertIff(data);
  }

  /** A resolved step keeps its name and action, binds each formal name to
      the registered object its actual parameter names, in order, and
      carries the shared context. */
  lemma ResolvedParameters(data: NodeData, apiActions: map<string, ApiValue>, apiObjects: map<string, ApiValue>, ctx: map<string, ApiValue>, asWritten: bool)
    requires PyDict.DistinctKeys(data.parameters)
    requires !IsSentinel(data) && ResolveNode(data, apiActions, apiObjects, ctx, asWritten).Ok?
    ensures var r := ResolveNode(data, apiActions, apiObjects, ctx, asWritten).value;
            && r.Executable?
            && r.nodeName == data.nodeName && r.action == data.action && r.context == ctx
            && |r.parameters| == |data.parameters|
            && forall i :: 0 <= i < |data.parameters| ==> r.parameters[i] == (data.parameters[i].0, apiObjects[data.parameters[i].1])
  {
    ResolveParametersShape(data.parameters, apiObjects);
  }

  /** A resolved step keeps its intervals in order, and each interval's
      conditions are the translations of the original ones, one for one and
      in order. */
  lemma ResolvedPreconditions(data: NodeData, apiActions: map<string, ApiValue>, apiObjects: map<string, ApiValue>, ctx: map<string, ApiValue>)
    requires PyDict.DistinctKeys(data.preconditions)
    requires !IsSentinel(data) && ResolveNode(data, apiActions, apiObjects, ctx, false).Ok?
    ensures var r := ResolveNode(data, apiActions, apiObjects, ctx, false).value;
            && r.Executable?
            && |r.preconditions| == |data.preconditions|
            && forall i :: 0 <= i < |data.preconditions| ==>
                 && r.preconditions[i].0 == data.preconditions[i].0
                 && |r.preconditions[i].1| == |data.preconditions[i].1|
                 && forall j :: 0 <= j < |data.preconditions[i].1| ==>
                      EM.Convert(data.preconditions[i].1[j]) == Ok(r.preconditions[i].1[j])
  {
    var conv := ConditionConverter(false);
    ConvertEntriesShape(data.preconditions, conv);
  }

  /** Each interval's effects become the pairs of their translated fluent
      and translated value, one for one and in order. */
  lemma ResolvedPostconditions(data: NodeData, apiActions: map<string, ApiValue>, apiObjects: map<string, ApiValue>, ctx: map<string, ApiValue>)
    requires PyDict.DistinctKeys(data.postconditions)
    requires !IsSentinel(data) && ResolveNode(data, apiActions, apiObjects, ctx, false).Ok?
    ensures var r := ResolveNode(data, apiActions, apiObjects, ctx, false).value;
            && r.Executable?
            && |r.postconditions| == |data.postconditions|
            && forall i :: 0 <= i < |data.postconditions| ==>
                 && r.postconditions[i].0 == data.postconditions[i].0
                 && |r.postconditions[i].1| == |data.postconditions[i].1|
                 && forall j :: 0 <= j < |data.postconditions[i].1| ==>
                      && EM.Convert(data.postconditions[i].1[j].fluent) == Ok(r.postconditions[i].1[j].0)
                      && EM.Convert(data.postconditions[i].1[j].value) == Ok(r.postconditions[i].1[j].1)
  {
    var posts := ConvertEntries(data.postconditions, EffectConverter(false));
    assert posts.Ok? && ResolveNode(data, apiActions, apiObjects, ctx, false).value.postconditions == posts.value;
    EffectEntriesShape(data.postconditions);
  }

  lemma EffectEntriesShape(src: PyDict.Dict<IntervalKey, seq<Effect>>)
    requires PyDict.DistinctKeys(src)
    requires ConvertEntries(src, EffectConverter(false)).Ok?
    ensures var posts := ConvertEntries(src, EffectConverter(false)).value;
            && |posts| == |src|
            && forall i :: 0 <= i < |src| ==>
                 && posts[i].0 == src[i].0
                 && |posts[i].1| == |src[i].1|
                 && forall j :: 0 <= j < |src[i].1| ==>
                      && EM.Convert(src[i].1[j].fluent) == Ok(posts[i].1[j].0)
                      && EM.Convert(src[i].1[j].value) == Ok(posts[i].1[j].1)
  {
    var convEff := EffectConverter(false);
    ConvertEntriesShape(src, convEff);
    var posts := ConvertEntries(src, convEff).value;
    forall i, j | 0 <= i < |src| && 0 <= j < |src[i].1|
      ensures EM.Convert(src[i].1[j].fluent) == Ok(posts[i].1[j].0)
      ensures EM.Convert(src[i].1[j].value) == Ok(posts[i].1[j].1)
    {
      assert posts[i].1[j] == convEff(src[i].1[j]).value;
    }
  }

  /** As written, a step whose action is registered and whose parameters
      resolve fails with TypeError as soon as one of its intervals holds a
      condition or an effect, because `convert` is called with an argument
      it does not take. */
  lemma AsWrittenRejectsConditions(data: NodeData, apiActions: map<string, ApiValue>, apiObjects: map<string, ApiValue>, ctx: map<string, ApiValue>)
    requires !IsSentinel(data) && data.action in apiActions
    requires ResolveParameters(data.parameters, apiObjects).Ok?
    requires (exists i :: 0 <= i < |data.preconditions| && data.preconditions[i].1 != [])
          || (exists i :: 0 <= i < |data.postconditions| && data.postconditions[i].1 != [])
    ensures ResolveNode(data, apiActions, apiObjects, ctx, true) == Err(ConvertTypeError)
  {
    var conv := ConditionConverter(true);
    var convEff := EffectConverter(true);
    if exists i :: 0 <= i < |data.preconditions| && data.preconditions[i].1 != [] {
      var i :| 0 <= i < |data.preconditions| && data.preconditions[i].1 != [];
      assert conv(data.preconditions[i].1[0]).Err?;
      ConvertEntriesOk(data.preconditions, conv);
      ConvertEntriesError(data.preconditions, conv);
    } else {
      ConvertEntriesOk(data.preconditions, conv);
      var i :| 0 <= i < |data.postconditions| && data.postconditions[i].1 != [];
      assert convEff(data.postconditions[i].1[0]).Err?;
      ConvertEntriesOk(data.postconditions, convEff);
      ConvertEntriesError(data.postconditions, convEff);
    }
  }

  /** A step with no condition and no effect anywhere comes out the same as
      written and as intended. */
  lemma AsWrittenAgreesWithoutConditions(data: NodeData, apiActions: map<string, ApiValue>, apiObjects: map<string, ApiValue>, ctx: map<string, ApiValue>)
    requires forall i :: 0 <= i < |data.preconditions| ==> data.preconditions[i].1 == []
    requires forall i :: 0 <= i < |data.postconditions| ==> data.postconditions[i].1 == []
    ensures ResolveNode(data, apiActions, apiObjects, ctx, true) == ResolveNode(data, apiActions, apiObjects, ctx, false)
  {
    ConvertEntriesSame(data.preconditions, ConditionConverter(true), ConditionConverter(false));
    ConvertEntriesSame(data.postconditions, EffectConverter(true), EffectConverter(false));
  }

  /** Empty lists never call the converter. */
  lemma {:induction false} ConvertEntriesSame<A, B>(src: PyDict.Dict<IntervalKey, seq<A>>, f: A -> Result<B, BridgeError>, g: A -> Result<B, BridgeError>)
    requires forall i :: 0 <= i < |src| ==> src[i].1 == []
    ensures ConvertEntries(src, f) == ConvertEntries(src, g)
    decreases |src|
  {
    if src != [] {
      var front := src[..|src| - 1];
      assert forall i :: 0 <= i < |front| ==> front[i] == src[i];
      ConvertEntriesSame(front, f, g);
    }
  }

  /** The smallest input that shows the mismatch: a registered step without
      parameters and with the single precondition `true` is rejected as
      written and converted as intended. */
  lemma ConditionedStepRejected(apiActions: map<string, ApiValue>, apiObjects: map<string, ApiValue>, ctx: map<string, ApiValue>)
    requires "a" in apiActions
    ensures var data := NodeData("a()", "a", [], [(StartKey, [Expr(ConstantExp(BoolConstant(true)), [])])], [(StartKey, [])]);
            && ResolveNode(data, apiActions, apiObjects, ctx, true) == Err(ConvertTypeError)
            && ResolveNode(data, apiActions, apiObjects, ctx, false).Ok?
  {
    var e := Expr(ConstantExp(BoolConstant(true)), []);
    var data := NodeData("a()", "a", [], [(StartKey, [e])], [(StartKey, [])]);
    assert data.preconditions[0].1 != [];
    AsWrittenRejectsConditions(data, apiActions, apiObjects, ctx);
    assert EM.Convert(e).Ok?;
    var conv := ConditionConverter(false);
    assert ConvertAll([e], conv).Ok?;
    ConvertEntriesOk(data.preconditions, conv);
    ConvertEntriesOk(data.postconditions, EffectConverter(false));
  }

  // ---------------------------------------------------------------------------
  // Conversion of the whole graph
  // ---------------------------------------------------------------------------

  /** The node loop of `get_executable_graph` over `ns`, in order: the new
      record of every node, or the first failure. A node without a record
      fails on its missing "action" key. */
  function ResolveAll(ns: seq<int>, attrs: map<int, NodeData>, apiActions: map<string, ApiValue>, apiObjects: map<string, ApiValue>,
                      ctx: map<string, ApiValue>, asWritten: bool): Result<map<int, ExecNode>, BridgeError>
    decreases |ns|
  {
    if ns == [] then Ok(map[])
    else
      var n := ns[|ns| - 1];
      match ResolveAll(ns[..|ns| - 1], attrs, apiActions, apiObjects, ctx, asWritten)
      case Err(e) => Err(e)
      case Ok(m) =>
        if n !in attrs then Err(MissingRecord(n))
        else
          match ResolveNode(attrs[n], apiActions, apiObjects, ctx, asWritten)
          case Err(e) => Err(e)
          case Ok(x) => Ok(m[n := x])
  }

  /** The graph `get_executable_graph` returns for the dependency graph `g`:
      the same nodes and edges, every record replaced. */
  function ExecutableGraph(g: DepGraph, apiActions: map<string, ApiValue>, apiObjects: map<string, ApiValue>,
                           ctx: map<string, ApiValue>, asWritten: bool): Result<ExecGraph, BridgeError>
  {
    match ResolveAll(g.nodes, g.attrs, apiActions, apiObjects, ctx, asWritten)
    case Err(e) => Err(e)
    case Ok(m) => Ok(Graph(g.nodes, m, g.edges))
  }

  lemma {:induction false} ResolveAllOk(ns: seq<int>, attrs: map<int, NodeData>, apiActions: map<string, ApiValue>, apiObjects: map<string, ApiValue>,
                                        ctx: map<string, ApiValue>, asWritten: bool)
    ensures ResolveAll(ns, attrs, apiActions, apiObjects, ctx, asWritten).Ok? <==>
              forall i :: 0 <= i < |ns| ==> ns[i] in attrs && ResolveNode(attrs[ns[i]], apiActions, apiObjects, ctx, asWritten).Ok?
    decreases |ns|
  {
    if ns != [] {
      var front := ns[..|ns| - 1];
      assert forall i :: 0 <= i < |front| ==> front[i] == ns[i];
      ResolveAllOk(front, attrs, apiActions, apiObjects, ctx, asWritten);
    }
  }

  lemma {:induction false} ResolveAllRecords(ns: seq<int>, attrs: map<int, NodeData>, apiActions: map<string, ApiValue>, apiObjects: map<string, ApiValue>,
                                             ctx: map<string, ApiValue>, asWritten: bool)
    requires ResolveAll(ns, attrs, apiActions, apiObjects, ctx, asWritten).Ok?
    ensures var m := ResolveAll(ns, attrs, apiActions, apiObjects, ctx, asWritten).value;
            && (forall n :: n in m <==> n in ns)
            && forall n :: n in m ==>
                 n in attrs && ResolveNode(attrs[n], apiActions, apiObjects, ctx, asWritten).Ok?
                 && m[n] == ResolveNode(attrs[n], apiActions, apiObjects, ctx, asWritten).value
    decreases |ns|
  {
    if ns != [] {
      var front := ns[..|ns| - 1];
      assert ns == front + [ns[|ns| - 1]];
      ResolveAllRecords(front, attrs, apiActions, apiObjects, ctx, asWritten);
    }
  }

  /** A failure is that of the first node, in graph order, that has no
      record or whose record does not resolve. */
  lemma {:induction false} ResolveAllError(ns: seq<int>, attrs: map<int, NodeData>, apiActions: map<string, ApiValue>, apiObjects: map<string, ApiValue>,
                                           ctx: map<string, ApiValue>, asWritten: bool)
    requires ResolveAll(ns, attrs, apiActions, apiObjects, ctx, asWritten).Err?
    ensures exists k :: 0 <= k < |ns|
              && (forall i :: 0 <= i < k ==> ns[i] in attrs && ResolveNode(attrs[ns[i]], apiActions, apiObjects, ctx, asWritten).Ok?)
              && if ns[k] !in attrs then ResolveAll(ns, attrs, apiActions, apiObjects, ctx, asWritten).error == MissingRecord(ns[k])
                 else ResolveNode(attrs[ns[k]], apiActions, apiObjects, ctx, asWritten).Err?
                      && ResolveAll(ns, attrs, apiActions, apiObjects, ctx, asWritten).error == ResolveNode(attrs[ns[k]], apiActions, apiObjects, ctx, asWritten).error
    decreases |ns|
  {
    var front := ns[..|ns| - 1];
    assert forall i :: 0 <= i < |front| ==> front[i] == ns[i];
    if ResolveAll(front, attrs, apiActions, apiObjects, ctx, asWritten).Err? {
      ResolveAllError(front, attrs, apiActions, apiObjects, ctx, asWritten);
    } else {
      ResolveAllOk(front, attrs, apiActions, apiObjects, ctx, asWritten);
    }
  }

  /** The executable graph has the nodes and edges of the dependency graph;
      it exists exactly when every node has a record that resolves, and then
      every node's record is the resolution of its old one. */
  lemma ExecutableGraphSpec(g: DepGraph, apiActions: map<string, ApiValue>, apiObjects: map<string, ApiValue>,
                            ctx: map<string, ApiValue>, asWritten: bool)
    ensures var r := ExecutableGraph(g, apiActions, apiObjects, ctx, asWritten);
            && (r.Ok? <==> forall n :: n in g.nodes ==> n in g.attrs && ResolveNode(g.attrs[n], apiActions, apiObjects, ctx, asWritten).Ok?)
            && (r.Ok? ==> r.value.nodes == g.nodes && r.value.edges == g.edges
                          && (forall n :: n in r.value.attrs <==> n in g.nodes)
                          && forall n :: n in r.value.attrs ==>
                               r.value.attrs[n] == ResolveNode(g.attrs[n], apiActions, apiObjects, ctx, asWritten).value)
  {
    ResolveAllOk(g.nodes, g.attrs, apiActions, apiObjects, ctx, asWritten);
    if forall n :: n in g.nodes ==> n in g.attrs && ResolveNode(g.attrs[n], apiActions, apiObjects, ctx, asWritten).Ok? {
      assert forall i :: 0 <= i < |g.nodes| ==> g.nodes[i] in g.nodes;
    }
    if ExecutableGraph(g, apiActions, apiObjects, ctx, asWritten).Ok? {
      ResolveAllRecords(g.nodes, g.attrs, apiActions, apiObjects, ctx, asWritten);
    }
  }

  /** "start" and "end" keep their records and get no context; every other
      node gets the one shared context. */
  lemma ExecutableGraphContext(g: DepGraph, apiActions: map<string, ApiValue>, apiObjects: map<string, ApiValue>,
                               ctx: map<string, ApiValue>, asWritten: bool)
    requires ExecutableGraph(g, apiActions, apiObjects, ctx, asWritten).Ok?
    ensures var r := ExecutableGraph(g, apiActions, apiObjects, ctx, asWritten).value;
            forall n :: n in r.attrs ==>
              && n in g.attrs
              && (IsSentinel(g.attrs[n]) ==> r.attrs[n] == Untouched(g.attrs[n]))
              && (!IsSentinel(g.attrs[n]) ==> r.attrs[n].Executable? && r.attrs[n].context == ctx)
  {
    ResolveAllRecords(g.nodes, g.attrs, apiActions, apiObjects, ctx, asWritten);
    var r := ExecutableGraph(g, apiActions, apiObjects, ctx, asWritten).value;
    forall n | n in r.attrs
      ensures n in g.attrs
      ensures IsSentinel(g.attrs[n]) ==> r.attrs[n] == Untouched(g.attrs[n])
      ensures !IsSentinel(g.attrs[n]) ==> r.attrs[n].Executable? && r.attrs[n].context == ctx
    {
      assert r.attrs[n] == ResolveNode(g.attrs[n], apiActions, apiObjects, ctx, asWritten).value;
    }
  }

  /** As written, a plan graph converts only if no step of it has a
      condition or an effect. */
  lemma AsWrittenGraphHasNoConditions(g: DepGraph, apiActions: map<string, ApiValue>, apiObjects: map<string, ApiValue>, ctx: map<string, ApiValue>)
    requires ExecutableGraph(g, apiActions, apiObjects, ctx, true).Ok?
    ensures forall n :: n in g.nodes && n in g.attrs && !IsSentinel(g.attrs[n]) ==>
              && (forall i :: 0 <= i < |g.attrs[n].preconditions| ==> g.attrs[n].preconditions[i].1 == [])
              && (forall i :: 0 <= i < |g.attrs[n].postconditions| ==> g.attrs[n].postconditions[i].1 == [])
  {
    ExecutableGraphSpec(g, apiActions, apiObjects, ctx, true);
    forall n | n in g.nodes && n in g.attrs && !IsSentinel(g.attrs[n])
      ensures forall i :: 0 <= i < |g.attrs[n].preconditions| ==> g.attrs[n].preconditions[i].1 == []
      ensures forall i :: 0 <= i < |g.attrs[n].postconditions| ==> g.attrs[n].postconditions[i].1 == []
    {
      var data := g.attrs[n];
      if (exists i :: 0 <= i < |data.preconditions| && data.preconditions[i].1 != [])
         || (exists i :: 0 <= i < |data.postconditions| && data.postconditions[i].1 != []) {
        AsWrittenRejectsConditions(data, apiActions, apiObjects, ctx);
        assert false;
      }
    }
  }

  // ---------------------------------------------------------------------------
  // The loops
  // ---------------------------------------------------------------------------

  /** The parameter loop of `get_executable_graph`. */
  method ResolveParametersLoop(bindings: PyDict.Dict<string, string>, apiObjects: map<string, ApiValue>) returns (r: Result<PyDict.Dict<string, ApiValue>, BridgeError>)
    ensures r == ResolveParameters(bindings, apiObjects)
  {
    var parameters: PyDict.Dict<string, ApiValue> := [];
    var i := 0;
    while i < |bindings|
      invariant 0 <= i <= |bindings|
      invariant ResolveParameters(bindings[..i], apiObjects) == Ok(parameters)
    {
      var (param, actual) := bindings[i];
      assert bindings[..i + 1][..i] == bindings[..i];
      if actual !in apiObjects {
        assert ResolveParameters(bindings[..i + 1], apiObjects) == Err(ObjectNotDefined(actual));
        ResolvePrefixError(bindings, apiObjects, i + 1);
        return Err(ObjectNotDefined(actual));
      }
      parameters := PyDict.Put(parameters, param, apiObjects[actual]);
      i := i + 1;
    }
    assert bindings[..i] == bindings;
    return Ok(parameters);
  }

  /** A failure on a prefix of the bindings is the failure of the whole. */
  lemma {:induction false} ResolvePrefixError(bindings: PyDict.Dict<string, string>, apiObjects: map<string, ApiValue>, k: nat)
    requires k <= |bindings| && ResolveParameters(bindings[..k], apiObjects).Err?
    ensures ResolveParameters(bindings, apiObjects) == ResolveParameters(bindings[..k], apiObjects)
    decreases |bindings| - k
  {
    if k < |bindings| {
      assert bindings[..k + 1][..k] == bindings[..k];
      ResolvePrefixError(bindings, apiObjects, k + 1);
    } else {
      assert bindings[..k] == bindings;
    }
  }

  /** A failure on a prefix of the list is the failure of the whole list. */
  lemma {:induction false} ConvertAllPrefixError<A, B>(xs: seq<A>, f: A -> Result<B, BridgeError>, k: nat)
    requires k <= |xs| && ConvertAll(xs[..k], f).Err?
    ensures ConvertAll(xs, f) == ConvertAll(xs[..k], f)
    decreases |xs| - k
  {
    if k < |xs| {
      assert xs[..k + 1][..k] == xs[..k];
      ConvertAllPrefixError(xs, f, k + 1);
    } else {
      assert xs[..k] == xs;
    }
  }

  /** A failure on a prefix of the intervals is the failure of the whole. */
  lemma {:induction false} ConvertEntriesPrefixError<A, B>(src: PyDict.Dict<IntervalKey, seq<A>>, f: A -> Result<B, BridgeError>, k: nat)
    requires k <= |src| && ConvertEntries(src[..k], f).Err?
    ensures ConvertEntries(src, f) == ConvertEntries(src[..k], f)
    decreases |src| - k
  {
    if k < |src| {
      assert src[..k + 1][..k] == src[..k];
      ConvertEntriesPrefixError(src, f, k + 1);
    } else {
      assert src[..k] == src;
    }
  }

  /** A failure on a prefix of the nodes is the failure of the whole. */
  lemma {:induction false} ResolveAllPrefixError(ns: seq<int>, attrs: map<int, NodeData>, apiActions: map<string, ApiValue>, apiObjects: map<string, ApiValue>,
                                                 ctx: map<string, ApiValue>, asWritten: bool, k: nat)
    requires k <= |ns| && ResolveAll(ns[..k], attrs, apiActions, apiObjects, ctx, asWritten).Err?
    ensures ResolveAll(ns, attrs, apiActions, apiObjects, ctx, asWritten) == ResolveAll(ns[..k], attrs, apiActions, apiObjects, ctx, asWritten)
    decreases |ns| - k
  {
    if k < |ns| {
      assert ns[..k + 1][..k] == ns[..k];
      ResolveAllPrefixError(ns, attrs, apiActions, apiObjects, ctx, asWritten, k + 1);
    } else {
      assert ns[..k] == ns;
    }
  }

  /** One more node of the loop. */
  lemma ResolveAllNext(ns: seq<int>, attrs: map<int, NodeData>, apiActions: map<string, ApiValue>, apiObjects: map<string, ApiValue>,
                       ctx: map<string, ApiValue>, asWritten: bool, i: nat)
    requires i < |ns|
    ensures ResolveAll(ns[..i + 1], attrs, apiActions, apiObjects, ctx, asWritten)
         == match ResolveAll(ns[..i], attrs, apiActions, apiObjects, ctx, asWritten)
            case Err(e) => Err(e)
            case Ok(m) =>
              if ns[i] !in attrs then Err(MissingRecord(ns[i]))
              else
                match ResolveNode(attrs[ns[i]], apiActions, apiObjects, ctx, asWritten)
                case Err(e) => Err(e)
                case Ok(x) => Ok(m[ns[i] := x])
  {
    assert ns[..i + 1][..i] == ns[..i];
  }

  /** The precondition (or effect) loops: for each interval, the list stored
      so far, or a new empty one, is extended in place by the converted
      entries. */
  method ConvertEntriesLoop<A, B>(src: PyDict.Dict<IntervalKey, seq<A>>, f: A -> Result<B, BridgeError>) returns (r: Result<PyDict.Dict<IntervalKey, seq<B>>, BridgeError>)
    ensures r == ConvertEntries(src, f)
  {
    var out: PyDict.Dict<IntervalKey, seq<B>> := [];
    var i := 0;
    while i < |src|
      invariant 0 <= i <= |src|
      invariant ConvertEntries(src[..i], f) == Ok(out)
    {
      var (interval, xs) := src[i];
      assert src[..i + 1][..i] == src[..i];
      var next := ExtendEntryLoop(out, interval, xs, f);
      if next.Err? {
        ConvertEntriesPrefixError(src, f, i + 1);
        return next;
      }
      out := next.value;
      i := i + 1;
    }
    assert src[..i] == src;
    return Ok(out);
  }

  /** Converting one more entry appends its conversion. */
  lemma ConvertAllSnoc<A, B>(xs: seq<A>, f: A -> Result<B, BridgeError>, j: nat)
    requires j < |xs| && ConvertAll(xs[..j], f).Ok? && f(xs[j]).Ok?
    ensures ConvertAll(xs[..j + 1], f) == Ok(ConvertAll(xs[..j], f).value + [f(xs[j]).value])
  {
    assert xs[..j + 1][..j] == xs[..j];
  }

  /** The inner loop of those loops: the list stored so far, or a new empty
      one, is extended in place by each converted entry. */
  method ExtendEntryLoop<A, B>(d: PyDict.Dict<IntervalKey, seq<B>>, interval: IntervalKey, xs: seq<A>, f: A -> Result<B, BridgeError>)
      returns (r: Result<PyDict.Dict<IntervalKey, seq<B>>, BridgeError>)
    ensures r == ExtendEntry(d, interval, xs, f)
  {
    var existing := Existing(d, interval);
    var out := PyDict.Put(d, interval, existing);
    ghost var done: seq<B> := [];
    assert xs[..0] == [];
    assert existing + [] == existing;
    var j := 0;
    while j < |xs|
      invariant 0 <= j <= |xs|
      invariant ConvertAll(xs[..j], f) == Ok(done)
      invariant out == PyDict.Put(d, interval, existing + done)
    {
      var t := f(xs[j]);
      if t.Err? {
        assert xs[..j + 1][..j] == xs[..j];
        ConvertAllPrefixError(xs, f, j + 1);
        return Err(t.error);
      }
      PyDict.GetPut(d, interval, existing + done);
      PyDict.PutPut(d, interval, existing + done, existing + done + [t.value]);
      out := PyDict.Put(out, interval, PyDict.Get(out, interval).value + [t.value]);
      ConvertAllSnoc(xs, f, j);
      done := done + [t.value];
      assert existing + done == existing + (done[..|done| - 1]) + [t.value];
      j := j + 1;
    }
    assert xs[..j] == xs;
    return Ok(out);
  }

  /** The body of the node loop of `get_executable_graph`. */
  method ResolveNodeStep(data: NodeData, apiActions: map<string, ApiValue>, apiObjects: map<string, ApiValue>,
                         ctx: map<string, ApiValue>, asWritten: bool) returns (r: Result<ExecNode, BridgeError>)
    ensures r == ResolveNode(data, apiActions, apiObjects, ctx, asWritten)
  {
    if data.action == "start" || data.action == "end" {
      return Ok(Untouched(data));
    }
    if data.action !in apiActions {
      return Err(ActionNotDefined(data.action));
    }
    var parameters := ResolveParametersLoop(data.parameters, apiObjects);
    if parameters.Err? {
      return Err(parameters.error);
    }
    var preconditions := ConvertEntriesLoop(data.preconditions, ConditionConverter(asWritten));
    if preconditions.Err? {
      return Err(preconditions.error);
    }
    var postconditions := ConvertEntriesLoop(data.postconditions, EffectConverter(asWritten));
    if postconditions.Err? {
      return Err(postconditions.error);
    }
    return Ok(Executable(data.nodeName, data.action, parameters.value, preconditions.value, postconditions.value, ctx));
  }

  /** The node loop of `get_executable_graph`: every record is rewritten in
      turn, and the first failure ends the conversion. */
  method ResolveGraph(g: DepGraph, apiActions: map<string, ApiValue>, apiObjects: map<string, ApiValue>,
                      ctx: map<string, ApiValue>, asWritten: bool) returns (r: Result<ExecGraph, BridgeError>)
    ensures r == ExecutableGraph(g, apiActions, apiObjects, ctx, asWritten)
  {
    var records: map<int, ExecNode> := map[];
    var i := 0;
    while i < |g.nodes|
      invariant 0 <= i <= |g.nodes|
      invariant ResolveAll(g.nodes[..i], g.attrs, apiActions, apiObjects, ctx, asWritten) == Ok(records)
    {
      var n := g.nodes[i];
      ResolveAllNext(g.nodes, g.attrs, apiActions, apiObjects, ctx, asWritten, i);
      if n !in g.attrs {
        ResolveAllPrefixError(g.nodes, g.attrs, apiActions, apiObjects, ctx, asWritten, i + 1);
        return Err(MissingRecord(n));
      }
      var record := ResolveNodeStep(g.attrs[n], apiActions, apiObjects, ctx, asWritten);
      if record.Err? {
        ResolveAllPrefixError(g.nodes, g.attrs, apiActions, apiObjects, ctx, asWritten, i + 1);
        return Err(record.error);
      }
      records := records[n := record.value];
      i := i + 1;
    }
    assert g.nodes[..i] == g.nodes;
    return Ok(Graph(g.nodes, records, g.edges));
  }

  // ---------------------------------------------------------------------------
  // The bridge object
  // ---------------------------------------------------------------------------

  class Bridge {
    var actions: map<string, CreatedAction>
    var apiActions: map<string, ApiValue>
    var objects: map<string, UpObject>
    var apiObjects: map<string, ApiValue>
    var fluentFunctions: map<string, ApiValue>

    /** Every planning object has its application object under the same
        name, and every action and object is filed under its own name. */
    ghost predicate Valid()
      reads this
    {
      && objects.Keys == apiObjects.Keys
      && (forall n :: n in objects ==> objects[n].name == n)
      && (forall n :: n in actions ==> actions[n].name == n)
    }

    constructor()
      ensures Valid()
      ensures actions == map[] && apiActions == map[] && fluentFunctions == map[]
      ensures objects == map[] && apiObjects == map[]
    {
      actions := map[];
      apiActions := map[];
      objects := map[];
      apiObjects := map[];
      fluentFunctions := map[];
    }

    /** `create_action`: a new name gets the action built from the effective
        signature, and its callable when one is given; a known name fails
        its assertion and changes nothing. */
    method CreateAction(name: string, signature: PyDict.Dict<string, SignatureValue>, callable: Option<ApiValue>,
                        kwargs: PyDict.Dict<string, SignatureValue>) returns (r: Result<CreatedAction, BridgeError>)
      requires Valid()
      modifies this
      ensures Valid()
      ensures objects == old(objects) && apiObjects == old(apiObjects) && fluentFunctions == old(fluentFunctions)
      ensures name in old(actions) ==> r == Err(AlreadyExists(name)) && actions == old(actions) && apiActions == old(apiActions)
      ensures name !in old(actions) ==>
                && r == Ok(NewAction(name, EffectiveSignature(signature, kwargs)))
                && actions == old(actions)[name := r.value]
                && apiActions == if callable.Some? then old(apiActions)[name := callable.value] else old(apiActions)
    {
      if name in actions {
        return Err(AlreadyExists(name));
      }
      var action := NewAction(name, EffectiveSignature(signature, kwargs));
      actions := actions[name := action];
      if callable.Some? {
        apiActions := apiActions[name := callable.value];
      }
      return Ok(action);
    }

    /** `set_api_actions`: registers each function under its name, stopping
        at the first name already registered. */
    method SetApiActions(fs: seq<(string, ApiValue)>) returns (r: Result<(), BridgeError>)
      requires Valid()
      modifies this
      ensures Valid()
      ensures actions == old(actions) && objects == old(objects) && apiObjects == old(apiObjects) && fluentFunctions == old(fluentFunctions)
      ensures apiActions == Registered(old(apiActions), fs).0
      ensures r.Ok? <==> Registered(old(apiActions), fs).1.None?
      ensures r.Err? ==> r.error == AlreadyExists(Registered(old(apiActions), fs).1.value)
    {
      var clash;
      apiActions, clash := RegisterLoop(apiActions, fs);
      if clash.Some? {
        return Err(AlreadyExists(clash.value));
      }
      return Ok(());
    }

    /** `set_fluent_functions`: the same registration for fluent functions. */
    method SetFluentFunctions(fs: seq<(string, ApiValue)>) returns (r: Result<(), BridgeError>)
      requires Valid()
      modifies this
      ensures Valid()
      ensures actions == old(actions) && objects == old(objects) && apiObjects == old(apiObjects) && apiActions == old(apiActions)
      ensures fluentFunctions == Registered(old(fluentFunctions), fs).0
      ensures r.Ok? <==> Registered(old(fluentFunctions), fs).1.None?
      ensures r.Err? ==> r.error == AlreadyExists(Registered(old(fluentFunctions), fs).1.value)
    {
      var clash;
      fluentFunctions, clash := RegisterLoop(fluentFunctions, fs);
      if clash.Some? {
        return Err(AlreadyExists(clash.value));
      }
      return Ok(());
    }

    /** `create_object`: a new name gets the planning object (of the type
        the type registry assigns to `value`) and the application object;
        afterwards `get_object` finds the planning object for every value
        named alike. */
    method CreateObject(name: string, value: ApiValue, typeName: string) returns (r: Result<UpObject, BridgeError>)
      requires Valid()
      modifies this
      ensures Valid()
      ensures actions == old(actions) && apiActions == old(apiActions) && fluentFunctions == old(fluentFunctions)
      ensures name in old(objects) ==> r == Err(AlreadyExists(name)) && objects == old(objects) && apiObjects == old(apiObjects)
      ensures name !in old(objects) ==>
                && r == Ok(UpObject(name, typeName))
                && objects == old(objects)[name := r.value]
                && apiObjects == old(apiObjects)[name := value]
      ensures r.Ok? ==> forall w :: ObjectName(w) == name ==> GetObject(w) == Found(r.value)
    {
      if name in objects {
        return Err(AlreadyExists(name));
      }
      var created := UpObject(name, typeName);
      objects := objects[name := created];
      apiObjects := apiObjects[name := value];
      return Ok(created);
    }

    /** `get_object`: the planning object named like `v`, else `v` itself. */
    function GetObject(v: ApiValue): (r: ObjectLookup)
      reads this
      ensures r.Found? <==> ObjectName(v) in objects
      ensures r.Found? ==> r.upObject == objects[ObjectName(v)]
      ensures r.Itself? ==> r.value == v
    {
      var name := ObjectName(v);
      if name in objects then Found(objects[name]) else Itself(v)
    }

    /** `get_executable_action`: the callable of the step's action and the
        application objects of its actual parameters, in order. */
    function GetExecutableAction(a: ActionInstance): (r: Result<(ApiValue, seq<ApiValue>), BridgeError>)
      reads this
      ensures a.action.name !in apiActions ==> r == Err(ActionNotDefined(a.action.name))
      ensures r.Ok? <==> a.action.name in apiActions && forall i :: 0 <= i < |a.actualParameters| ==> a.actualParameters[i] in apiObjects
      ensures r.Ok? ==> r.value.0 == apiActions[a.action.name]
                        && |r.value.1| == |a.actualParameters|
                        && forall i :: 0 <= i < |a.actualParameters| ==> r.value.1[i] == apiObjects[a.actualParameters[i]]
      ensures r.Err? && a.action.name in apiActions ==>
                exists k :: 0 <= k < |a.actualParameters| && a.actualParameters[k] !in apiObjects
                  && r.error == ObjectKeyError(a.actualParameters[k])
    {
      if a.action.name !in apiActions then Err(ActionNotDefined(a.action.name))
      else
        match LookupObjects(a.actualParameters, apiObjects)
        case Err(e) => Err(e)
        case Ok(vs) => Ok((apiActions[a.action.name], vs))
    }

    /** `get_executable_graph`: the dependency graph of the plan with every
        step record resolved against the registries and the shared context.
        As written (`asWritten`), the join of a time-triggered plan is looked
        up by name and every condition conversion raises TypeError; without
        it both are fixed. */
    method GetExecutableGraph(plan: Plan, asWritten: bool) returns (r: Result<ExecGraph, BridgeError>)
      ensures !Convertible(plan) ==> r == Err(GraphFailed(ConversionError(plan).value))
      ensures Convertible(plan) ==>
                exists g :: DependencyGraphOf(plan, g, asWritten)
                  && r == ExecutableGraph(g, apiActions, apiObjects, Context(apiObjects, apiActions, fluentFunctions), asWritten)
    {
      var dg := PlanToDependencyGraph(plan, asWritten);
      if dg.Err? {
        return Err(GraphFailed(dg.error));
      }
      var context := Context(apiObjects, apiActions, fluentFunctions);
      r := ResolveGraph(dg.value, apiActions, apiObjects, context, asWritten);
    }
  }
}
