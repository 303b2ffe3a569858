/** The values the planning library hands to the system: condition and effect
    trees, action templates, grounded action instances and the three plan
    shapes. Everything here is produced outside the system and only read. */
module Plans {
  import opened Wrappers

  /** The constant carried by a constant node of a condition tree. Object
      constants and any other kind of constant are `OtherConstant`. */
  datatype ConstantValue =
    | BoolConstant(b: bool)
    | IntConstant(i: int)
    | RealConstant(r: real)
    | OtherConstant(text: string)

  /** The node kinds of a condition tree that the system distinguishes. */
  datatype Kind =
    | NotOp
    | AndOp
    | OrOp
    | EqualsOp
    | LeOp
    | LtOp
    | ConstantExp(value: ConstantValue)
    | FluentExp(fluent: string)
    | ParameterExp(parameter: string)
    | OtherOp(operator: string)

  /** A condition tree: a node kind and its ordered arguments. */
  datatype Expr = Expr(kind: Kind, args: seq<Expr>)

  /** An effect assigns `value` to the fluent expression `fluent`. */
  datatype Effect = Effect(fluent: Expr, value: Expr)

  /** The key a condition or effect list is stored under: the literal "start"
      for instantaneous actions, or a time interval / timing of a durative
      action (kept opaque, identified by its text). */
  datatype IntervalKey = StartKey | TimedKey(text: string)

  datatype ActionKind =
    | Instantaneous(preconditions: seq<Expr>, effects: seq<Effect>)
    | Durative(conditions: seq<(IntervalKey, seq<Expr>)>, timedEffects: seq<(IntervalKey, seq<Effect>)>)
    | OtherKind

  /** An action template: its name and the names of its formal parameters. */
  datatype Action = Action(name: string, parameters: seq<string>, kind: ActionKind)

  /** A grounded action of a plan. `uid` stands for the identity of the Python
      object (two steps of a plan are distinct objects even when they print
      alike), `actualParameters` are the printed names of the actual
      parameters, and `rendered` is the library's `str()` of the instance. */
  datatype ActionInstance = ActionInstance(uid: nat, action: Action, actualParameters: seq<string>, rendered: string)

  /** The duration of a step: its value and the text Python prints for it
      once converted to a float. */
  datatype Duration = Duration(value: real, text: string)

  /** One entry of a time-triggered plan. The library gives no duration
      (`None`) for an instantaneous action. */
  datatype TimedAction = TimedAction(start: real, instance: ActionInstance, duration: Option<Duration>)

  datatype Plan =
    | SequentialPlan(actions: seq<ActionInstance>)
    | TimeTriggeredPlan(timedActions: seq<TimedAction>)
    | PartialOrderPlan(adjacency: seq<(ActionInstance, seq<ActionInstance>)>)
    | OtherPlan
}
