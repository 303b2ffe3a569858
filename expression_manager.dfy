/** Translation of condition trees into Python expression trees
    (up_esb/components/expression_manager.py), together with an evaluation
    semantics for both sides that serves as the translation's specification. */
module ExpressionManager {
  import opened Wrappers
  import opened Plans

  datatype UnaryOperator = NotOperator
  datatype BoolOperator = AndOperator | OrOperator
  datatype CompareOperator = Eq | LtE | Lt

  datatype PyConstant = PyBool(b: bool) | PyInt(i: int) | PyReal(r: real)

  /** The Python `ast` nodes the translator builds. `NoneNode` stands for a
      Python `None` embedded where a sub-tree is expected. */
  datatype PyAst =
    | UnaryOp(uop: UnaryOperator, operand: PyAst)
    | BoolOp(bop: BoolOperator, values: seq<PyAst>)
    | Compare(cop: CompareOperator, left: PyAst, right: PyAst)
    | Constant(value: PyConstant)
    | Name(id: string)
    | Call(func: PyAst, callArgs: seq<PyAst>)
    | Expression(body: PyAst)
    | NoneNode

  const SupportedOperators: string :=
    "Supported operators are: Not, And, Or, Equals, Le, Lt, Constant, Fluent."

  datatype ConvertError =
    | NotImplementedError(message: string)  // unsupported constant
    | AssertionError                        // a comparison without exactly two arguments
    | IndexError                            // `arg(0)` of a Not node without arguments
    | NotAFluent                            // `.fluent()` asked of a node that is not a fluent expression
    | ValueError                            // "Unable to parse expression"

  /** The library's `auto_promote` of a single expression: a one-element list. */
  function AutoPromote(e: Expr): (es: seq<Expr>)
    ensures es == [e]
  {
    [e]
  }

  function Embed(o: Option<PyAst>): PyAst
  {
    if o.Some? then o.value else NoneNode
  }

  /** `_map_expression`: translate the first element of the promoted list, or
      return `None` when that list is empty. */
  function MapExpression(e: Expr): (r: Result<Option<PyAst>, ConvertError>)
    ensures MapNode(e).Ok? ==> r == Ok(Some(MapNode(e).value))
    ensures MapNode(e).Err? ==> r == Err(MapNode(e).error)
    ensures r.Err? ==> r.error != ValueError
    decreases e, 2
  {
    var promoted := AutoPromote(e);
    if promoted == [] then Ok(None)
    else
      match MapNode(promoted[0])
      case Ok(t) => Ok(Some(t))
      case Err(err) => Err(err)
  }

  /** The body of the loop in `_map_expression` for one node. */
  function MapNode(e: Expr): (r: Result<PyAst, ConvertError>)
    ensures r.Err? ==> r.error != ValueError
    decreases e, 1
  {
    match e.kind
    case NotOp =>
      if |e.args| == 0 then Err(IndexError)
      else
        (match MapExpression(e.args[0])
         case Ok(t) => Ok(UnaryOp(NotOperator, Embed(t)))
         case Err(err) => Err(err))
    case AndOp =>
      (match MapAll(e, 0)
       case Ok(ts) => Ok(BoolOp(AndOperator, ts))
       case Err(err) => Err(err))
    case OrOp =>
      (match MapAll(e, 0)
       case Ok(ts) => Ok(BoolOp(OrOperator, ts))
       case Err(err) => Err(err))
    case EqualsOp => MapCompare(e, Eq)
    case LeOp => MapCompare(e, LtE)
    case LtOp => MapCompare(e, Lt)
    case ConstantExp(c) =>
      (match c
       case BoolConstant(b) => Ok(Constant(PyBool(b)))
       case IntConstant(i) => Ok(Constant(PyInt(i)))
       case RealConstant(x) => Ok(Constant(PyReal(x)))
       case OtherConstant(_) => Err(NotImplementedError(SupportedOperators)))
    case FluentExp(name) => Ok(Call(Name(name), []))
    case ParameterExp(_) => Err(NotAFluent)
    case OtherOp(_) => Err(NotAFluent)
  }

  /** `[self._map_expression(arg) for arg in exp.args[from:]]`. */
  function MapAll(e: Expr, from: nat): (r: Result<seq<PyAst>, ConvertError>)
    requires from <= |e.args|
    ensures r.Ok? ==> |r.value| == |e.args| - from
    ensures r.Err? ==> r.error != ValueError
    decreases e, 0, |e.args| - from
  {
    if from == |e.args| then Ok([])
    else
      match MapExpression(e.args[from])
      case Err(err) => Err(err)
      case Ok(t) =>
        match MapAll(e, from + 1)
        case Err(err) => Err(err)
        case Ok(ts) => Ok([Embed(t)] + ts)
  }

  function MapCompare(e: Expr, op: CompareOperator): (r: Result<PyAst, ConvertError>)
    ensures r.Err? ==> r.error != ValueError
    decreases e, 0
  {
    if |e.args| != 2 then Err(AssertionError)
    else
      match MapExpression(e.args[0])
      case Err(err) => Err(err)
      case Ok(l) =>
        match MapExpression(e.args[1])
        case Err(err) => Err(err)
        case Ok(r) => Ok(Compare(op, Embed(l), Embed(r)))
  }

  /** `ExpressionManager.convert` (`_create_tree`): wrap the translation in an
      `Expression` node, or fail with ValueError when there is none. */
  function Convert(e: Expr): (r: Result<PyAst, ConvertError>)
  {
    match MapExpression(e)
    case Err(err) => Err(err)
    case Ok(None) => Err(ValueError)
    case Ok(Some(t)) => Ok(Expression(t))
  }

  // ---------------------------------------------------------------------------
  // Properties of the translation
  // ---------------------------------------------------------------------------

  /** The translation never embeds `None`: no Python tree it returns contains
      a `NoneNode`. */
  predicate NoneFree(t: PyAst)
  {
    match t
    case UnaryOp(_, a) => NoneFree(a)
    case BoolOp(_, vs) => forall i :: 0 <= i < |vs| ==> NoneFree(vs[i])
    case Compare(_, l, r) => NoneFree(l) && NoneFree(r)
    case Constant(_) => true
    case Name(_) => true
    case Call(f, xs) => NoneFree(f) && forall i :: 0 <= i < |xs| ==> NoneFree(xs[i])
    case Expression(b) => NoneFree(b)
    case NoneNode => false
  }

  lemma {:induction false} MapExpressionIsSome(e: Expr)
    ensures MapExpression(e).Ok? ==> MapExpression(e).value.Some? && NoneFree(MapExpression(e).value.value)
    decreases e, 2
  {
    MapNodeNoneFree(e);
  }

  lemma {:induction false} MapNodeNoneFree(e: Expr)
    ensures MapNode(e).Ok? ==> NoneFree(MapNode(e).value)
    decreases e, 1
  {
    match e.kind
    case NotOp =>
      if |e.args| > 0 { MapExpressionIsSome(e.args[0]); }
    case AndOp => MapAllNoneFree(e, 0);
    case OrOp => MapAllNoneFree(e, 0);
    case EqualsOp => MapCompareNoneFree(e, Eq);
    case LeOp => MapCompareNoneFree(e, LtE);
    case LtOp => MapCompareNoneFree(e, Lt);
    case ConstantExp(_) =>
    case FluentExp(_) =>
    case ParameterExp(_) =>
    case OtherOp(_) =>
  }

  lemma {:induction false} MapAllNoneFree(e: Expr, from: nat)
    requires from <= |e.args|
    ensures MapAll(e, from).Ok? ==> forall i :: 0 <= i < |MapAll(e, from).value| ==> NoneFree(MapAll(e, from).value[i])
    decreases e, 0, |e.args| - from
  {
    if from < |e.args| {
      MapExpressionIsSome(e.args[from]);
      MapAllNoneFree(e, from + 1);
    }
  }

  lemma {:induction false} MapCompareNoneFree(e: Expr, op: CompareOperator)
    ensures MapCompare(e, op).Ok? ==> NoneFree(MapCompare(e, op).value)
    decreases e, 0
  {
    if |e.args| == 2 {
      MapExpressionIsSome(e.args[0]);
      MapExpressionIsSome(e.args[1]);
    }
  }

  /** `convert` raises ValueError for no input: the promoted list of a single
      expression is never empty, so its ValueError branch is dead. Every
      successful conversion is an `Expression` whose body holds no `None`. */
  lemma ConvertNeverValueError(e: Expr)
    ensures Convert(e) != Err(ValueError)
    ensures Convert(e).Ok? ==> Convert(e).value.Expression? && NoneFree(Convert(e).value)
  {
    MapExpressionIsSome(e);
  }

  // ---------------------------------------------------------------------------
  // Evaluation: the meaning of a condition tree and of a Python tree
  // ---------------------------------------------------------------------------

  datatype Value = VBool(b: bool) | VInt(i: int) | VReal(r: real)

  /** The value of a fluent applied to argument values, supplied by the
      application's fluent functions. */
  type FluentValuation = (string, seq<Value>) -> Value

  predicate IsNumber(v: Value)
  {
    v.VInt? || v.VReal?
  }

  /** Python's numeric view of a value (`True == 1`, `1 == 1.0`). */
  function Num(v: Value): real
  {
    match v
    case VBool(b) => if b then 1.0 else 0.0
    case VInt(i) => i as real
    case VReal(x) => x
  }

  /** Python truthiness. */
  predicate Truthy(v: Value)
  {
    match v
    case VBool(b) => b
    case VInt(i) => i != 0
    case VReal(x) => x != 0.0
  }

  /** The planning-level meaning of a condition tree; `None` for ill-typed
      trees and for nodes outside the supported fragment. */
  function EvalExpr(e: Expr, fl: FluentValuation): Option<Value>
    decreases e, 1
  {
    match e.kind
    case NotOp =>
      if |e.args| != 1 then None
      else
        (match EvalExpr(e.args[0], fl)
         case Some(VBool(b)) => Some(VBool(!b))
         case _ => None)
    case AndOp => EvalJunction(e, 0, true, fl)
    case OrOp => EvalJunction(e, 0, false, fl)
    case EqualsOp =>
      if |e.args| != 2 then None
      else
        (match (EvalExpr(e.args[0], fl), EvalExpr(e.args[1], fl))
         case (Some(VBool(a)), Some(VBool(b))) => Some(VBool(a == b))
         case (Some(a), Some(b)) =>
           if IsNumber(a) && IsNumber(b) then Some(VBool(Num(a) == Num(b))) else None
         case _ => None)
    case LeOp => EvalOrder(e, false, fl)
    case LtOp => EvalOrder(e, true, fl)
    case ConstantExp(c) =>
      (match c
       case BoolConstant(b) => Some(VBool(b))
       case IntConstant(i) => Some(VInt(i))
       case RealConstant(x) => Some(VReal(x))
       case OtherConstant(_) => None)
    case FluentExp(name) =>
      (match EvalArgs(e, 0, fl)
       case Some(vs) => Some(fl(name, vs))
       case None => None)
    case ParameterExp(_) => None
    case OtherOp(_) => None
  }

  /** Conjunction (`isAnd`) or disjunction of the boolean arguments from `from` on. */
  function EvalJunction(e: Expr, from: nat, isAnd: bool, fl: FluentValuation): Option<Value>
    requires from <= |e.args|
    decreases e, 0, |e.args| - from
  {
    if from == |e.args| then Some(VBool(isAnd))
    else
      match (EvalExpr(e.args[from], fl), EvalJunction(e, from + 1, isAnd, fl))
      case (Some(VBool(a)), Some(VBool(rest))) =>
        Some(VBool(if isAnd then a && rest else a || rest))
      case _ => None
  }

  function EvalOrder(e: Expr, strict: bool, fl: FluentValuation): Option<Value>
    decreases e, 0
  {
    if |e.args| != 2 then None
    else
      match (EvalExpr(e.args[0], fl), EvalExpr(e.args[1], fl))
      case (Some(a), Some(b)) =>
        if IsNumber(a) && IsNumber(b)
        then Some(VBool(if strict then Num(a) < Num(b) else Num(a) <= Num(b)))
        else None
      case _ => None
  }

  function EvalArgs(e: Expr, from: nat, fl: FluentValuation): (r: Option<seq<Value>>)
    requires from <= |e.args|
    decreases e, 0, |e.args| - from
  {
    if from == |e.args| then Some([])
    else
      match (EvalExpr(e.args[from], fl), EvalArgs(e, from + 1, fl))
      case (Some(v), Some(vs)) => Some([v] + vs)
      case _ => None
  }

  /** The model's abstract evaluator of the tree the translation intends, in a
      context whose names are bound to the fluent functions; `None` where
      Python would raise. A comparison is read by its operator, left and right
      operands; Python's own `compile` rejects the comparison nodes the
      translator builds (see `Compiles`), so this is the intended meaning, not
      what the dispatcher's `eval` does with them. */
  function EvalAst(t: PyAst, fl: FluentValuation): Option<Value>
    decreases t
  {
    match t
    case UnaryOp(_, a) =>
      (match EvalAst(a, fl)
       case Some(v) => Some(VBool(!Truthy(v)))
       case None => None)
    case BoolOp(op, vs) => if vs == [] then None else EvalBoolOp(op, vs, fl)
    case Compare(op, l, r) =>
      (match (EvalAst(l, fl), EvalAst(r, fl))
       case (Some(a), Some(b)) =>
         Some(VBool(match op
                    case Eq => Num(a) == Num(b)
                    case LtE => Num(a) <= Num(b)
                    case Lt => Num(a) < Num(b)))
       case _ => None)
    case Constant(c) =>
      (match c
       case PyBool(b) => Some(VBool(b))
       case PyInt(i) => Some(VInt(i))
       case PyReal(x) => Some(VReal(x)))
    case Name(_) => None
    case Call(f, xs) =>
      if f.Name? then
        (match EvalAstList(xs, fl)
         case Some(vs) => Some(fl(f.id, vs))
         case None => None)
      else None
    case Expression(b) => EvalAst(b, fl)
    case NoneNode => None
  }

  /** Python's short-circuit `and` / `or`: the first falsy (truthy) operand,
      otherwise the last one. */
  function EvalBoolOp(op: BoolOperator, vs: seq<PyAst>, fl: FluentValuation): Option<Value>
    requires vs != []
    decreases vs
  {
    match EvalAst(vs[0], fl)
    case None => None
    case Some(v) =>
      if |vs| == 1 then Some(v)
      else if (op == AndOperator && !Truthy(v)) || (op == OrOperator && Truthy(v)) then Some(v)
      else EvalBoolOp(op, vs[1..], fl)
  }

  function EvalAstList(xs: seq<PyAst>, fl: FluentValuation): Option<seq<Value>>
    decreases xs
  {
    if xs == [] then Some([])
    else
      match (EvalAst(xs[0], fl), EvalAstList(xs[1..], fl))
      case (Some(v), Some(vs)) => Some([v] + vs)
      case _ => None
  }

  /** Whether Python's `compile` accepts a translated tree. The translator
      builds every comparison with `op`, `left` and `right`, while Python's
      comparison node has the fields `ops`, `left` and `comparators`; `compile`
      then raises TypeError for the missing `ops`. Before compiling, Python
      also validates every `BoolOp` and raises ValueError when it holds fewer
      than two values. The other nodes the translator builds carry the fields
      `compile` requires. */
  predicate Compiles(t: PyAst)
    decreases t
  {
    match t
    case UnaryOp(_, a) => Compiles(a)
    case BoolOp(_, vs) => |vs| >= 2 && AllCompile(vs)
    case Compare(_, _, _) => false
    case Call(f, xs) => Compiles(f) && AllCompile(xs)
    case Expression(b) => Compiles(b)
    case _ => true
  }

  predicate AllCompile(ts: seq<PyAst>)
    decreases ts
  {
    ts == [] || (Compiles(ts[0]) && AllCompile(ts[1..]))
  }

  /** Whether a condition holds an Equals, Le or Lt node that the translator
      reaches: below Not, And and Or, the nodes `_map_expression` descends
      into. */
  predicate ComparesAt(e: Expr)
    decreases e, 1
  {
    match e.kind
    case NotOp => |e.args| > 0 && ComparesAt(e.args[0])
    case AndOp => SomeArgCompares(e, 0)
    case OrOp => SomeArgCompares(e, 0)
    case EqualsOp => true
    case LeOp => true
    case LtOp => true
    case _ => false
  }

  predicate SomeArgCompares(e: Expr, from: nat)
    requires from <= |e.args|
    decreases e, 0, |e.args| - from
  {
    from < |e.args| && (ComparesAt(e.args[from]) || SomeArgCompares(e, from + 1))
  }

  /** Whether a condition holds an And or Or node with fewer than two
      arguments that the translator reaches. The planning library's own
      `And`/`Or` constructors never build one (they return the single
      argument itself, or TRUE/FALSE for none), but a tree built by hand may. */
  predicate NarrowJunctionAt(e: Expr)
    decreases e, 1
  {
    match e.kind
    case NotOp => |e.args| > 0 && NarrowJunctionAt(e.args[0])
    case AndOp => |e.args| < 2 || SomeArgNarrow(e, 0)
    case OrOp => |e.args| < 2 || SomeArgNarrow(e, 0)
    case _ => false
  }

  predicate SomeArgNarrow(e: Expr, from: nat)
    requires from <= |e.args|
    decreases e, 0, |e.args| - from
  {
    from < |e.args| && (NarrowJunctionAt(e.args[from]) || SomeArgNarrow(e, from + 1))
  }

  /** As written, a translated condition compiles exactly when it holds no
      comparison and every And/Or in it has at least two arguments: every
      precondition or postcondition with Equals, Le or Lt fails in the
      dispatcher's `compile`. */
  lemma {:induction false} CompilesIffNoComparison(e: Expr)
    requires MapNode(e).Ok?
    ensures Compiles(MapNode(e).value) <==> !ComparesAt(e) && !NarrowJunctionAt(e)
    decreases e, 1
  {
    match e.kind
    case NotOp =>
      CompilesIffNoComparison(e.args[0]);
    case AndOp =>
      AllCompileIffNoneCompares(e, 0);
    case OrOp =>
      AllCompileIffNoneCompares(e, 0);
    case EqualsOp =>
    case LeOp =>
    case LtOp =>
    case ConstantExp(_) =>
    case FluentExp(_) =>
    case ParameterExp(_) =>
    case OtherOp(_) =>
  }

  lemma {:induction false} AllCompileIffNoneCompares(e: Expr, from: nat)
    requires from <= |e.args|
    requires MapAll(e, from).Ok?
    ensures AllCompile(MapAll(e, from).value) <==> !SomeArgCompares(e, from) && !SomeArgNarrow(e, from)
    decreases e, 0, |e.args| - from
  {
    if from < |e.args| {
      CompilesIffNoComparison(e.args[from]);
      AllCompileIffNoneCompares(e, from + 1);
      assert MapAll(e, from).value[1..] == MapAll(e, from + 1).value;
    }
  }

  /** The whole conversion: the `Expression` tree `convert` returns compiles
      exactly when the condition holds no comparison and no And/Or with fewer
      than two arguments. */
  lemma ConvertCompilesIffNoComparison(e: Expr)
    requires Convert(e).Ok?
    ensures Compiles(Convert(e).value) <==> !ComparesAt(e) && !NarrowJunctionAt(e)
  {
    CompilesIffNoComparison(e);
  }

  /** `And(true)` built by hand translates to a `BoolOp` with one value,
      which `compile` refuses although it holds no comparison. */
  lemma SingleAndRejected()
    ensures var e := Expr(AndOp, [Expr(ConstantExp(BoolConstant(true)), [])]);
            && MapNode(e).Ok? && !ComparesAt(e)
            && MapNode(e).value == BoolOp(AndOperator, [Constant(PyBool(true))])
            && !Compiles(MapNode(e).value)
  {
    var e := Expr(AndOp, [Expr(ConstantExp(BoolConstant(true)), [])]);
    assert MapAll(e, 1) == Ok([]);
  }

  /** The fragment the translation is meant for: fluents take no arguments
      (the translator drops them) and every And/Or has at least one argument
      (Python has no empty `and`). A one-argument And/Or stays in the
      fragment: the intended tree means its argument, although `compile`
      refuses it as built (`NarrowJunctionAt`); the planning library's own
      constructors never build one. */
  predicate InFragment(e: Expr)
    decreases e, 1
  {
    && (e.kind.FluentExp? ==> e.args == [])
    && ((e.kind.AndOp? || e.kind.OrOp?) ==> e.args != [])
    && ArgsInFragment(e, 0)
  }

  predicate ArgsInFragment(e: Expr, from: nat)
    requires from <= |e.args|
    decreases e, 0, |e.args| - from
  {
    from == |e.args| || (InFragment(e.args[from]) && ArgsInFragment(e, from + 1))
  }

  /** Translation preserves meaning: a condition tree of the fragment that has
      a value at the planning level translates without error into a Python
      tree with the same value. */
  lemma {:induction false} TranslationPreservesMeaning(e: Expr, fl: FluentValuation)
    requires InFragment(e)
    requires EvalExpr(e, fl).Some?
    ensures MapNode(e).Ok?
    ensures EvalAst(MapNode(e).value, fl) == EvalExpr(e, fl)
    decreases e, 1
  {
    match e.kind
    case NotOp =>
      var a := e.args[0];
      assert InFragment(a);
      TranslationPreservesMeaning(a, fl);
    case AndOp =>
      JunctionPreservesMeaning(e, 0, true, fl);
    case OrOp =>
      JunctionPreservesMeaning(e, 0, false, fl);
    case EqualsOp =>
      assert InFragment(e.args[0]) && ArgsInFragment(e, 1);
      TranslationPreservesMeaning(e.args[0], fl);
      TranslationPreservesMeaning(e.args[1], fl);
    case LeOp =>
      assert InFragment(e.args[0]) && ArgsInFragment(e, 1);
      TranslationPreservesMeaning(e.args[0], fl);
      TranslationPreservesMeaning(e.args[1], fl);
    case LtOp =>
      assert InFragment(e.args[0]) && ArgsInFragment(e, 1);
      TranslationPreservesMeaning(e.args[0], fl);
      TranslationPreservesMeaning(e.args[1], fl);
    case ConstantExp(_) =>
    case FluentExp(_) =>
      assert EvalArgs(e, 0, fl) == Some([]);
  }

  lemma {:induction false} JunctionPreservesMeaning(e: Expr, from: nat, isAnd: bool, fl: FluentValuation)
    requires from < |e.args|
    requires ArgsInFragment(e, from)
    requires EvalJunction(e, from, isAnd, fl).Some?
    ensures MapAll(e, from).Ok?
    ensures EvalBoolOp(if isAnd then AndOperator else OrOperator, MapAll(e, from).value, fl)
            == EvalJunction(e, from, isAnd, fl)
    decreases e, 0, |e.args| - from
  {
    var op := if isAnd then AndOperator else OrOperator;
    TranslationPreservesMeaning(e.args[from], fl);
    var t := MapNode(e.args[from]).value;
    var a := EvalExpr(e.args[from], fl).value.b;
    if from + 1 < |e.args| {
      JunctionPreservesMeaning(e, from + 1, isAnd, fl);
      var ts := MapAll(e, from + 1).value;
      assert MapAll(e, from).value == [t] + ts;
      assert ([t] + ts)[1..] == ts;
    } else {
      assert MapAll(e, from + 1) == Ok([]);
      assert MapAll(e, from).value == [t];
    }
  }

  /** The translator keeps only a fluent's name: a fluent applied to an
      argument becomes a call without arguments, whose value differs from the
      planning-level one whenever the fluent function tells the two apart. */
  lemma FluentArgumentsDropped(name: string, arg: Expr, fl: FluentValuation)
    requires EvalExpr(arg, fl).Some?
    requires fl(name, [EvalExpr(arg, fl).value]) != fl(name, [])
    ensures MapNode(Expr(FluentExp(name), [arg])) == Ok(Call(Name(name), []))
    ensures EvalAst(MapNode(Expr(FluentExp(name), [arg])).value, fl) != EvalExpr(Expr(FluentExp(name), [arg]), fl)
  {
    var e := Expr(FluentExp(name), [arg]);
    assert e.args[0] == arg;
    assert EvalArgs(e, 1, fl) == Some([]);
    var v := EvalExpr(arg, fl).value;
    assert [v] + [] == [v];
    assert EvalArgs(e, 0, fl) == Some([v]);
  }
}
