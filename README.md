# Embedded Systems Bridge — a verified model of its core

The embedded-systems bridge connects the unified-planning framework to the
code of a robot or other embedded system. An application registers its own
actions, objects and fluent functions with the bridge; a planner returns a
plan; the bridge turns the plan into a *dependency graph* whose nodes are
plan steps bound to the application's callables; and a dispatcher walks that
graph, checking conditions and calling the actions, while a monitor, a task
manager or a mutable behaviour tree keep track of execution. The older
`up_bridge` package holds an earlier, name-keyed version of the same ideas.

This project models that core in Dafny and proves what it promises:

* `DependencyGraph`, `PartialOrder`, `PlanGraph` — the three plan-to-graph
  compilers of `up_esb` (sequential, time-triggered and partial-order plans)
  over a networkx-like graph (`DiGraph`: insertion-ordered node list, record
  map, edge set).
* `LegacyDependencyGraph` — the name-keyed compilers of `up_bridge`.
* `ExpressionManager` — the translation of planning conditions into Python
  expression trees, with an evaluator on both sides.
* `ExecutionBridge` — the registries of the bridge and
  `get_executable_graph`, which binds every step to the registered runtime
  objects and converts its conditions and effects.
* `Dispatcher`, `Monitor`, `TaskManagement`, `BehaviorTree` — execution
  bookkeeping: the plan dispatcher, the plan monitor's shadow graph, the
  task queue and the mutable behaviour tree.
* `ActionDefinitions`, `LegacyActionDefinitions`, `LegacyDispatch`,
  `UserTypes` — action definitions with precondition/effect checks, the old
  sequential dispatcher with its replan-once rule, and user-defined types.
* `Plans`, `Status`, `PyDict`, `Wrappers` — shared data: plans and action
  instances, status enumerations, Python dicts as ordered key/value lists,
  and `Option`/`Result`.

User callables (actions, fluent functions, executors, dispatch and replan
callbacks, string hashing) are function-typed parameters. Python's set
iteration order and networkx's adjacency order are parameters or are
specified for every order. Errors Python raises are `Err` values.

## Model

| member | source | states |
|---|---|---|
| `PlanGraph.PlanToDependencyGraph` | up_esb/components/graph.py:32-42 | Fails exactly when the plan is of no supported kind (PlanTypeNotSupported) or one of its steps cannot be converted, with the error the first such step raises: a time-triggered step without duration (MissingDuration, the AttributeError of `duration.numerator`) or an action neither instantaneous nor durative (UnknownActionType); otherwise returns the dependency graph of the plan's kind, with the join looked up by name as written or fixed |
| `PlanGraph.ConversionError` | up_esb/components/graph.py:32-42 | No error exactly when the plan can be converted; for a time-triggered plan it is the error of the first step that cannot be |
| `DependencyGraph.ProcessAction` | up_esb/components/graph.py:223-238 | Returns the parameter bindings and the start-keyed or interval-keyed conditions and effects, and fails exactly for an action of unknown kind |
| `DependencyGraph.ActionParametersAreZip` | up_esb/components/graph.py:225-227 | With distinct formal names, the bindings are the formals zipped with the actual parameters, in order |
| `DependencyGraph.SequentialPlanToGraph` | up_esb/components/graph.py:104-135 | Nodes are exactly 0..N+1; the edges are exactly (k, k+1) for 0 <= k <= N; node 0 is "start", node N+1 is "end", node i+1 holds step i's record; it fails exactly when some step has an unknown kind |
| `DependencyGraph.SequentialPrefixStep` | up_esb/components/graph.py:116-128 | One loop turn extends the chain built so far by step i and its edge from node i |
| `DependencyGraph.SequentialDone` | up_esb/components/graph.py:130-135 | Adding "end" after the last step completes the chain with N+2 nodes and the edge into "end" |
| `DependencyGraph.ChainEdgeCount` | up_esb/components/graph.py:104-135 | A sequential plan of N steps gives exactly N+1 edges |
| `DependencyGraph.ChainNeighbours` | up_esb/components/graph.py:116-134 | In the chain, every node but "end" has exactly its next node as successor, and every node but "start" exactly its previous node as predecessor |
| `DependencyGraph.TimedNodesLoop` | up_esb/components/graph.py:140-174 | The first loop adds "start" (0), one node per step named after the step and its duration (i+1), and "end" (N+1); it fails exactly when some step has no duration or an action of unknown kind, with the error of the first such step, its missing duration raised before its action is processed |
| `DependencyGraph.FirstTimedError` | up_esb/components/graph.py:153-156 | No error exactly when every step has a duration and an action of known kind |
| `DependencyGraph.TimedNodes` | up_esb/components/graph.py:140-174 | Specification of the graph after the first loop: "start", one node per step under its first name, "end", and no edge |
| `DependencyGraph.StepNameNotJoinName` | up_esb/components/graph.py:160-186 | A step whose duration text does not end in "s" is never first named like a join |
| `DependencyGraph.FirstNamed` | up_esb/components/graph.py:214-220 | The id found carries the name; no id means no node carries it |
| `DependencyGraph.GetNodeId` | up_esb/components/graph.py:214-220 | The linear search returns the first node, in insertion order, whose name matches, or none |
| `DependencyGraph.ParentOf` | up_esb/components/graph.py:177-184 | The parent of step i is "start" or an earlier step |
| `DependencyGraph.ParentOfFollowsChange` | up_esb/components/graph.py:183-184 | The parent changes only where consecutive start times differ: a non-start parent is the last step before a change of start time |
| `DependencyGraph.Pending` | up_esb/components/graph.py:203-205 | The nodes waiting for a join are steps already passed |
| `DependencyGraph.PendingCollectsGroup` | up_esb/components/graph.py:203-205 | Every step of a time group, up to the current one, is pending |
| `DependencyGraph.TimedRoundStep` | up_esb/components/graph.py:177-205 | One turn of the second loop gives the graph, parent and pending set of the round specification, with the join looked up by name as written or fixed |
| `DependencyGraph.TimedRound` | up_esb/components/graph.py:177-205 | Specification of one round: the edge from the parent, and at a change of start time the join of the pending nodes into the join target, found by name as written or the next step's node when fixed |
| `DependencyGraph.JoinLoop` | up_esb/components/graph.py:185-202 | Joining the pending nodes, in any order, adds an edge from every pending node to the join node and changes nothing when none is pending; as written the join node is the first node found by the name lookup, and only when none is found is the next step's node renamed and used |
| `DependencyGraph.TimeTriggeredPlanToGraph` | up_esb/components/graph.py:138-211 | The graph is the rounds' graph plus the edge from the last step to "end", as written or with the join fixed; fails exactly when a step has no duration or an action of unknown kind, with the first such step's error |
| `DependencyGraph.TimeTriggeredGraph` | up_esb/components/graph.py:138-211 | Specification of the whole conversion: all rounds over the first loop's graph, then the edge from the last step to "end" |
| `DependencyGraph.TimedRunNodes` | up_esb/components/graph.py:177-205 | The rounds never add or remove a node: the nodes stay 0..N+1, all with records |
| `DependencyGraph.TimedRunForward` | up_esb/components/graph.py:177-205 | With the fixed join, every edge goes from a lower to a higher id and none reaches "end" |
| `DependencyGraph.TimedRunEdges` | up_esb/components/graph.py:177-205 | The edges after k rounds are exactly the edges the first k rounds add: parent edges and joins of pending nodes, as written or fixed |
| `DependencyGraph.TimedRunEdgesGrow` | up_esb/components/graph.py:177-205 | Rounds only ever add edges |
| `DependencyGraph.TimeTriggeredShape` | up_esb/components/graph.py:138-211 | The graph is well formed with nodes 0..N+1, every edge goes forward, "start" has no predecessor and "end" has exactly the last step as predecessor |
| `DependencyGraph.TimeTriggeredParentEdge` | up_esb/components/graph.py:177-184 | Every step is linked from its parent, as written and fixed |
| `DependencyGraph.TimeTriggeredGroupPrecedesNext` | up_esb/components/graph.py:183-205 | Every step of a time group has an edge to the round's join target of the next group (the next step itself for the group's last step); with the fixed join the target is always the first step of the next group |
| `DependencyGraph.TimeTriggeredLastGroupSinks` | up_esb/components/graph.py:207-210 | Steps of the last time group other than the last step have no successor, as written and fixed |
| `DependencyGraph.AsWrittenJoinNamed` | up_esb/components/graph.py:185-202 | As written, the join target of a closing group carries the join name of the next group's first step, is that step's node when the lookup finds nothing, and receives an edge from every pending node |
| `DependencyGraph.TimedRunRecords` | up_esb/components/graph.py:147-202 | After any number of rounds the nodes are exactly 0..N+1, the sentinels keep their records, and every step's node holds its record under its first name or its join name |
| `DependencyGraph.JoinLookupDistinct` | up_esb/components/graph.py:214-220 | When no two steps share a join name, a node carrying the next step's join name can only be that step's own node, already renamed |
| `DependencyGraph.AsWrittenAgreesWhenNamesDistinct` | up_esb/components/graph.py:138-211 | When no two steps share a join name, the conversion as written builds exactly the graph of the fixed one, so every shape property of the fixed join holds for the code as written |
| `DependencyGraph.RepeatedJoinPlan` | up_esb/components/graph.py:138-211 | A five-step plan with a repeated action, every step known |
| `DependencyGraph.RepeatedJoinRecords` | up_esb/components/graph.py:185-202 | In that plan, after three rounds exactly node 3 has been renamed for the join of the first repeated step |
| `DependencyGraph.RepeatedJoinLookup` | up_esb/components/graph.py:214-220 | The name lookup for the second join finds node 3 |
| `DependencyGraph.RepeatedJoinNames` | up_esb/components/graph.py:185-202 | Node 3 is the only node that carries the join name |
| `DependencyGraph.RepeatedJoinSelfLoop` | up_esb/components/graph.py:185-205 | As written, pending node 3 is joined to itself |
| `DependencyGraph.TimeTriggeredRepeatedJoin` | up_esb/components/graph.py:183-202 | As written the graph has the self-loop (3, 3); with the fixed join it has (3, 5) and no self-loop |
| `PartialOrder.StepsOf` | up_esb/components/graph.py:54-55 | The plan nodes of a list of steps are exactly those steps |
| `PartialOrder.PlanNodes` | up_esb/components/graph.py:50-57 | The node set always holds "start" and "end" |
| `PartialOrder.PlanNodesHold` | up_esb/components/graph.py:52-55 | Every key and every listed successor is in the node set |
| `PartialOrder.PlanNodesExactly` | up_esb/components/graph.py:50-57 | A step is in the node set exactly when it is a key or a listed successor |
| `PartialOrder.CollectPlanNodes` | up_esb/components/graph.py:50-57 | The first loop collects exactly the keys, the listed successors, "start" and "end" |
| `PartialOrder.NumberNodes` | up_esb/components/graph.py:59-60 | Enumerating the set, in any order, gives every node a distinct id in 0..n-1 |
| `PartialOrder.PlanNodeIds` | up_esb/components/graph.py:49-60 | The node map is a numbering of the plan's nodes |
| `PartialOrder.RowOf` | up_esb/components/graph.py:70-83 | A key's round works from its id, its record and its successors' ids, in order |
| `PartialOrder.Rows` | up_esb/components/graph.py:70-86 | The rows of the first k keys, one per key, in order |
| `PartialOrder.Targets` | up_esb/components/graph.py:82-86 | A key is always linked to something: its successors, or "end" when it lists none |
| `PartialOrder.SourcesIn` | up_esb/components/graph.py:89 | Exactly the listed nodes with in-degree 0 |
| `PartialOrder.SourcesLoop` | up_esb/components/graph.py:89 | The comprehension keeps the nodes of in-degree 0, in node order |
| `PartialOrder.LinkLoop` | up_esb/components/graph.py:98-99 | Adding the edges from one node adds missing targets as bare nodes and exactly the fan of edges |
| `PartialOrder.LinkSuccessors` | up_esb/components/graph.py:82-86 | The key is linked to each successor, or to "end" when it lists none |
| `PartialOrder.KeyStep` | up_esb/components/graph.py:70-86 | One round adds the key's record and edges, and fails exactly on an unknown action kind |
| `PartialOrder.MainLoop` | up_esb/components/graph.py:62-86 | "end", then one round per key; fails exactly when some key has an unknown action kind |
| `PartialOrder.RunSoFarStep` | up_esb/components/graph.py:70-86 | One turn of the main loop extends the rows handled by one |
| `PartialOrder.RowsExtend` | up_esb/components/graph.py:70 | The rows of k+1 keys are those of k keys and one more |
| `PartialOrder.LinkStart` | up_esb/components/graph.py:88-99 | "start" is added last and linked to every node of in-degree 0 after the main loop |
| `PartialOrder.PartialOrderPlanToGraph` | up_esb/components/graph.py:45-101 | Fails exactly on an unknown action kind; otherwise the graph is the partial-order graph for some numbering of the plan's nodes |
| `PartialOrder.PartialOrderGraph` | up_esb/components/graph.py:45-101 | Specification of the graph built for a numbering of the plan's nodes: one round per key, then "start" linked to the nodes of in-degree 0 |
| `PartialOrder.RowsRunValid` | up_esb/components/graph.py:62-86 | The main loop keeps the graph well formed |
| `PartialOrder.RowsRunEdgeIn` | up_esb/components/graph.py:81-86 | Every edge a round adds is in the final graph |
| `PartialOrder.RowsRunEdgeFrom` | up_esb/components/graph.py:81-86 | Every edge of the graph was added by some round |
| `PartialOrder.RowsRunNodeIn` | up_esb/components/graph.py:62-86 | "end" and every node a row names are nodes of the graph |
| `PartialOrder.RowsRunNodeFrom` | up_esb/components/graph.py:62-86 | Every node other than "end" is named by some row |
| `PartialOrder.RowsRunAttrs` | up_esb/components/graph.py:62-80 | A node has a record exactly when it is "end" or a key; "end" keeps its sentinel record unless a key takes its id |
| `PartialOrder.RowsRunRecord` | up_esb/components/graph.py:73-80 | A key's node holds the record of the last round with that key |
| `PartialOrder.RowsGraphValid` | up_esb/components/graph.py:88-99 | Adding "start" keeps the graph well formed |
| `PartialOrder.RowsGraphEdges` | up_esb/components/graph.py:88-99 | The final edges are those of the main loop plus one from "start" to each node of in-degree 0 |
| `PartialOrder.RowsGraphOnlySource` | up_esb/components/graph.py:88-99 | With a fresh id, "start" has no predecessor and every other node has one |
| `PartialOrder.RowsGraphStartEdges` | up_esb/components/graph.py:88-99 | "start" is linked to a node exactly when "start" is that node's only predecessor |
| `PartialOrder.StartIsFresh` | up_esb/components/graph.py:56-60 | No node of the main loop has the id of "start" |
| `PartialOrder.RowEdgeIsPlanEdge` | up_esb/components/graph.py:81-86 | A round adds exactly the plan's edges of its key: one per listed successor, or one to "end" |
| `PartialOrder.PartialOrderPlanEdgeIn` | up_esb/components/graph.py:81-86 | Every plan edge is an edge of the graph |
| `PartialOrder.PartialOrderEdgeFrom` | up_esb/components/graph.py:70-99 | Every edge not leaving "start" is a plan edge |
| `PartialOrder.PartialOrderStart` | up_esb/components/graph.py:88-99 | The graph is well formed; "start" is its only node without a predecessor, and it is linked to exactly the nodes it is the only predecessor of |
| `PartialOrder.PartialOrderNodeIn` | up_esb/components/graph.py:50-86 | Every plan node, "start" and "end" included, is a node of the graph |
| `PartialOrder.PartialOrderNodeFrom` | up_esb/components/graph.py:50-99 | Every node of the graph is the id of a plan node |
| `PartialOrder.PartialOrderSentinels` | up_esb/components/graph.py:62-97 | "start" and "end" carry their sentinel records |
| `PartialOrder.PartialOrderKeyRecord` | up_esb/components/graph.py:73-80 | Each key's node carries the record made for it |
| `PartialOrder.PartialOrderRecordIff` | up_esb/components/graph.py:70-80 | A step has a record exactly when it is a key; a step only listed as successor stays a bare node |
| `PartialOrder.PartialOrderEmptyPlan` | up_esb/components/graph.py:45-101 | A plan without steps gives the nodes "end" and "start" and the single edge start to end |
| `LegacyDependencyGraph.TupleText` | up_bridge/components/graph.py:26 | Python's text of a tuple starts with a parenthesis |
| `LegacyDependencyGraph.StepNameNotSentinel` | up_bridge/components/graph.py:26 | A step's node name always holds a parenthesis, so it is never "start" or "end" |
| `LegacyDependencyGraph.TimedNameNotSentinel` | up_bridge/components/graph.py:44 | A time-triggered node name is never "start" or "end" |
| `LegacyDependencyGraph.SequentialSteps` | up_bridge/components/graph.py:24-29 | One step per action, in order |
| `LegacyDependencyGraph.ZeroStartSteps` | up_bridge/components/graph.py:59-64 | At most one step per action |
| `LegacyDependencyGraph.ZeroStartStepsFrom` | up_bridge/components/graph.py:59-64 | Every step comes from an action starting at 0 |
| `LegacyDependencyGraph.ZeroStartStepsCover` | up_bridge/components/graph.py:59-64 | Every action starting at 0 gives a step |
| `LegacyDependencyGraph.ZeroStartNone` | up_bridge/components/graph.py:59-64 | No action starting at 0 means no step |
| `LegacyDependencyGraph.SequentialGraph` | up_bridge/components/graph.py:19-33 | The loop builds the chain of the plan's steps, keyed by the printed action, then "end" |
| `LegacyDependencyGraph.ChainStep` | up_bridge/components/graph.py:24-29 | One turn adds step i after its predecessor |
| `LegacyDependencyGraph.StarStep` | up_bridge/components/graph.py:43-48 | One added child is entered from "start" with its duration as weight |
| `LegacyDependencyGraph.StarLoopStep` | up_bridge/components/graph.py:59-64 | One turn of the loop adds a step exactly for an action starting at 0, and extends the steps of the prefix by it |
| `LegacyDependencyGraph.TimeTriggeredGraph` | up_bridge/components/graph.py:36-70 | Fails with MissingDuration (the AttributeError of `duration.numerator`) exactly when some step has no duration; otherwise the loop builds the star of the steps starting at 0 with their weights, and "end" entered from "start" |
| `LegacyDependencyGraph.PlanToDependencyGraph` | up_bridge/components/graph.py:10-16 | A sequential plan gives its chain without weights; a time-triggered plan its star and weights when every step has a duration and MissingDuration otherwise; any other plan fails |
| `LegacyDependencyGraph.NodesOfSpec` | up_bridge/components/graph.py:23-29 | The nodes are "start" first, then the step names, each once, and exactly the nodes with records |
| `LegacyDependencyGraph.AttrsOfSpec` | up_bridge/components/graph.py:23-29 | "start" keeps its record and each node holds the record of the last step with its name |
| `LegacyDependencyGraph.ChainEdgesOfSpec` | up_bridge/components/graph.py:24-29 | The chain's edges are exactly one into each step from the node before it |
| `LegacyDependencyGraph.StarEdgesOfSpec` | up_bridge/components/graph.py:43-48 | The star's edges are exactly one from "start" into each step |
| `LegacyDependencyGraph.WeightsOfSpec` | up_bridge/components/graph.py:46 | Exactly the star's edges carry a weight, that of the last step with the name |
| `LegacyDependencyGraph.WithEndSpec` | up_bridge/components/graph.py:68-69 | Adding "end" keeps the graph well formed and appends it to the nodes |
| `LegacyDependencyGraph.ChainShape` | up_bridge/components/graph.py:19-33 | The sequential graph has nodes "start", the step names and "end", each once; exactly the chain edges and the edge into "end"; the sentinel and step records |
| `LegacyDependencyGraph.StarShape` | up_bridge/components/graph.py:36-70 | The time-triggered graph's every edge leaves "start"; "end" is entered from "start" alone; each step's node holds its record and its edge its duration |
| `LegacyDependencyGraph.EmptySequentialPlan` | up_bridge/components/graph.py:22-32 | An empty plan gives "start", "end" and the single edge between them |
| `LegacyDependencyGraph.ConsecutiveRepeatLoops` | up_bridge/components/graph.py:25-28 | Two consecutive steps printed alike share a node, which gets an edge to itself |
| `LegacyDependencyGraph.LateStartsIgnored` | up_bridge/components/graph.py:59-69 | When no action starts at 0 the graph is only "start" and "end" with one edge |
| `ExecutionBridge.MergeSignatureGet` | up_esb/bridge.py:213-214 | In `dict(signature, **kwargs)` a keyword argument overrides the entry of the same name and every other entry keeps its value |
| `ExecutionBridge.ParameterNames` | up_esb/bridge.py:216-221 | A name is a parameter exactly when it is in the signature and is neither "return" nor "duration" |
| `ExecutionBridge.NewAction` | up_esb/bridge.py:215-226 | The action keeps its name and parameter names, and is durative with that fixed duration exactly when the signature holds a "duration" that is not None |
| `ExecutionBridge.RegisterLoop` | up_esb/bridge.py:252-255 | The registration loop gives the registry and the first clashing name of the registration function |
| `ExecutionBridge.RegisteredFails` | up_esb/bridge.py:252-255 | Registration fails exactly when a name is already registered or comes twice in the list |
| `ExecutionBridge.RegisteredKeys` | up_esb/bridge.py:252-255 | A successful registration adds exactly the given names |
| `ExecutionBridge.RegisteredContents` | up_esb/bridge.py:252-255 | A successful registration files every function under its name and keeps the earlier entries |
| `ExecutionBridge.RegisteredClash` | up_esb/bridge.py:252-255 | A failed registration stops at a name that was registered or came earlier, and only the functions before it are registered |
| `ExecutionBridge.LookupObjects` | up_esb/bridge.py:264-266 | Succeeds exactly when every name is a registered object, giving those objects in order; otherwise fails with the KeyError of the first missing name |
| `ExecutionBridge.Context` | up_esb/bridge.py:363-367 | The context holds the objects, actions and fluent functions; on a name clash the fluent function wins over the action, and the action over the object |
| `ExecutionBridge.ConvertAll` | up_esb/bridge.py:399-402 | Converting a list succeeds exactly when every entry converts, one result per entry in order; a failure is that of one entry |
| `ExecutionBridge.ResolveParameters` | up_esb/bridge.py:379-385 | Succeeds exactly when every actual parameter names a registered object; a failure names one that does not |
| `ExecutionBridge.ResolveParametersShape` | up_esb/bridge.py:379-385 | With distinct formal names each formal keeps its place and is bound to the registered object its actual parameter names |
| `ExecutionBridge.ConvertEntriesOk` | up_esb/bridge.py:389-403 | The interval lists convert exactly when every list converts |
| `ExecutionBridge.ConvertEntriesError` | up_esb/bridge.py:389-403 | A failure is the failure of one interval's list |
| `ExecutionBridge.ConvertEntriesShape` | up_esb/bridge.py:389-403 | With distinct intervals each interval keeps its place and gets its list converted entry by entry |
| `ExecutionBridge.ExtendNew` | up_esb/bridge.py:393-402 | An interval not yet stored gets a new entry at the end holding its converted list |
| `ExecutionBridge.ConditionsConvertIff` | up_esb/bridge.py:389-402 | A record's conditions convert exactly when every condition translates |
| `ExecutionBridge.EffectsConvertIff` | up_esb/bridge.py:405-418 | A record's effects convert exactly when every effect's fluent and value translate |
| `ExecutionBridge.ResolveNodeOk` | up_esb/bridge.py:369-422 | "start" and "end" records are left as they are; any other record resolves exactly when its action is registered, its parameters name registered objects and its conditions and effects translate, and an unregistered action fails with ValueError |
| `ExecutionBridge.ResolveNode` | up_esb/bridge.py:373-422 | Specification of one node's resolution: sentinels are kept; any other record binds its action, its parameters, its conditions and its effects to the registered runtime objects, or fails with the first error |
| `ExecutionBridge.ResolvedParameters` | up_esb/bridge.py:379-422 | A resolved step keeps its name and action, binds each formal to the registered object of its actual parameter, in order, and carries the shared context |
| `ExecutionBridge.ResolvedPreconditions` | up_esb/bridge.py:389-403 | A resolved step keeps its intervals in order and each interval's conditions are the translations of the originals, one for one and in order |
| `ExecutionBridge.ResolvedPostconditions` | up_esb/bridge.py:405-419 | Each interval's effects become pairs of translated fluent and translated value, one for one and in order |
| `ExecutionBridge.EffectEntriesShape` | up_esb/bridge.py:405-419 | The converted effect lists keep the intervals in order and pair each effect's translated fluent and value |
| `ExecutionBridge.AsWrittenRejectsConditions` | up_esb/bridge.py:399-402 | As written, a registered step whose parameters resolve fails with TypeError as soon as one interval holds a condition |
| `ExecutionBridge.AsWrittenAgreesWithoutConditions` | up_esb/bridge.py:389-419 | A step with no condition and no effect resolves the same as written and as intended |
| `ExecutionBridge.ConvertEntriesSame` | up_esb/bridge.py:389-419 | Empty lists never reach the converter |
| `ExecutionBridge.ConditionedStepRejected` | up_esb/bridge.py:399-402 | A registered step with the single condition `true` fails with TypeError as written and resolves when the bindings are ignored |
| `ExecutionBridge.ResolveAllOk` | up_esb/bridge.py:369-376 | The node loop succeeds exactly when every node has a record that resolves |
| `ExecutionBridge.ResolveAllRecords` | up_esb/bridge.py:369-422 | After the node loop every node's record is the resolution of its old one, and no other record exists |
| `ExecutionBridge.ResolveAllError` | up_esb/bridge.py:369-376 | A failure is that of the first node, in graph order, with no record or a record that does not resolve |
| `ExecutionBridge.ExecutableGraphSpec` | up_esb/bridge.py:357-424 | The executable graph keeps the nodes and edges; it exists exactly when every record resolves, and then every record is the resolution of the old one |
| `ExecutionBridge.ExecutableGraph` | up_esb/bridge.py:357-424 | Specification of the whole conversion: the graph with every record resolved, or the first node's failure |
| `ExecutionBridge.ExecutableGraphContext` | up_esb/bridge.py:373-422 | "start" and "end" keep their records and get no context; every other node gets the one shared context |
| `ExecutionBridge.AsWrittenGraphHasNoConditions` | up_esb/bridge.py:389-419 | As written, a graph converts only if none of its steps has a condition or an effect |
| `ExecutionBridge.ResolveParametersLoop` | up_esb/bridge.py:379-385 | The parameter loop builds the bindings of the resolution specification and stops at the first unknown object |
| `ExecutionBridge.ResolvePrefixError` | up_esb/bridge.py:379-384 | A failure on a prefix of the bindings is the failure of the whole |
| `ExecutionBridge.ConvertAllPrefixError` | up_esb/bridge.py:399-402 | A failure on a prefix of a list is the failure of the whole list |
| `ExecutionBridge.ConvertEntriesPrefixError` | up_esb/bridge.py:391-402 | A failure on a prefix of the intervals is the failure of the whole |
| `ExecutionBridge.ResolveAllPrefixError` | up_esb/bridge.py:369-376 | A failure on a prefix of the nodes is the failure of the whole |
| `ExecutionBridge.ConvertEntriesLoop` | up_esb/bridge.py:390-403 | The condition (or effect) loops give the converted interval lists of the specification |
| `ExecutionBridge.ConvertAllSnoc` | up_esb/bridge.py:399-402 | Converting one more entry appends its conversion |
| `ExecutionBridge.ExtendEntryLoop` | up_esb/bridge.py:393-402 | The inner loop appends each converted entry to the list stored so far, or to a new empty list, and stops at the first failure |
| `ExecutionBridge.ResolveNodeStep` | up_esb/bridge.py:369-422 | One turn of the node loop resolves the record as the specification says |
| `ExecutionBridge.ResolveGraph` | up_esb/bridge.py:369-424 | The node loop rewrites every record and stops at the first failure, giving the executable graph of the specification |
| `ExecutionBridge.Bridge.constructor` | up_esb/bridge.py:57-70 | A new bridge has empty registries |
| `ExecutionBridge.Bridge.CreateAction` | up_esb/bridge.py:198-230 | A known name fails and changes nothing; a new name files the action built from the effective signature, and its callable when one is given; no other registry changes |
| `ExecutionBridge.Bridge.SetApiActions` | up_esb/bridge.py:248-255 | Registers the callables as the registration function says, failing on the first clash; no other registry changes |
| `ExecutionBridge.Bridge.SetFluentFunctions` | up_esb/bridge.py:178-184 | The same registration for fluent functions |
| `ExecutionBridge.Bridge.CreateObject` | up_esb/bridge.py:268-273 | A known name fails and changes nothing; a new name files the planning object and the application object under it, after which `get_object` finds the planning object for every value named alike |
| `ExecutionBridge.Bridge.GetObject` | up_esb/bridge.py:288-291 | Returns the planning object filed under the value's `name` (or its text) when there is one, and the value itself otherwise |
| `ExecutionBridge.Bridge.GetExecutableAction` | up_esb/bridge.py:257-266 | An unregistered action fails with ValueError; otherwise succeeds exactly when every actual parameter is a registered object, giving the callable and those objects in order, and fails with the KeyError of a missing one |
| `ExecutionBridge.Bridge.GetExecutableGraph` | up_esb/bridge.py:357-424 | Fails with the dependency graph's error, the first unconvertible step's, exactly when the plan cannot be converted; otherwise gives the executable graph of the plan's dependency graph under the context of the three registries, as written or fixed in both the join lookup and the condition conversion |
| `Dispatcher.AllPassSnoc` | up_esb/plexmo/dispatcher.py:52-53 | The run stays unfailed after one more result exactly when it was unfailed and that result passes the check |
| `Dispatcher.CheckResult` | up_esb/plexmo/dispatcher.py:61-69 | An action succeeded exactly when its preconditions, the action itself and its postconditions all report SUCCEEDED |
| `Dispatcher.Steps` | up_esb/plexmo/dispatcher.py:47-50 | Specification of the nodes the loop hands to the executor, in graph order |
| `Dispatcher.StepsMembers` | up_esb/plexmo/dispatcher.py:47-50 | The executed nodes are exactly the nodes with a record whose action is neither "start" nor "end" |
| `Dispatcher.StepsOnce` | up_esb/plexmo/dispatcher.py:47-50 | Over distinct nodes every such node is executed exactly once, and no other node is |
| `Dispatcher.RunNodes` | up_esb/plexmo/dispatcher.py:47-53 | The node loop executes those nodes in graph order up to the first node without a record (KeyError), and the run is failed exactly when some result fails the check |
| `Dispatcher.PlanDispatcher.constructor` | up_esb/plexmo/dispatcher.py:30-37 | A new dispatcher is IDLE, with the default dispatch callback, no replan callback, position 0 and no graph or options |
| `Dispatcher.PlanDispatcher.ExecutePlan` | up_esb/plexmo/dispatcher.py:39-59 | Stores the graph and options and resets the position; executes the non-sentinel nodes in order without stopping at a failed result; returns true with FINISHED exactly when every result passes the check, false with FAILED otherwise, and raises KeyError at a node without a record |
| `Dispatcher.PlanDispatcher.SetDispatchCallback` | up_esb/plexmo/dispatcher.py:71-77 | Replaces the dispatch callback and nothing else |
| `Dispatcher.PlanDispatcher.SetReplanCallback` | up_esb/plexmo/dispatcher.py:83-85 | Replaces the replan callback and nothing else |
| `Dispatcher.PlanDispatcher.CurrentStatus` | up_esb/plexmo/dispatcher.py:79-81 | Reports the stored status |
| `Dispatcher.DryRun` | up_esb/plexmo/dispatcher.py:97 | A run is dry exactly when the options hold `dry_run` set to true |
| `Dispatcher.GroupStopSpec` | up_esb/plexmo/dispatcher.py:102-111 | The loop over one group's conditions stops exactly when a condition does not pass, and stops at the first one |
| `Dispatcher.GroupsStopSpec` | up_esb/plexmo/dispatcher.py:101-111 | The loop over the groups stops exactly when some condition does not pass, and reports the 1-based number of the first group holding one |
| `Dispatcher.CheckGroups` | up_esb/plexmo/dispatcher.py:101-111 | The nested condition loops stop where the specification says, with the group number and the verdict |
| `Dispatcher.PlanDispatcher.DefaultDispatch` | up_esb/plexmo/dispatcher.py:87-132 | The callback's outcome is that of the dispatch specification for the record and the options of the last run |
| `Dispatcher.Dispatch` | up_esb/plexmo/dispatcher.py:87-132 | Specification of the default callback: missing context or action and missing options fail first; then the precondition groups, the action, and the postcondition groups, each stopping at the first condition that does not pass |
| `Dispatcher.InvokedAfterPreconditions` | up_esb/plexmo/dispatcher.py:100-116 | The action is invoked exactly when the record is complete, options are set and every precondition evaluates and is truthy, falsy ones being tolerated in a dry run |
| `Dispatcher.DispatchSucceeds` | up_esb/plexmo/dispatcher.py:100-130 | The callback returns normally exactly when every precondition holds before the action and every postcondition's two sides are equal after it, failures being tolerated in a dry run |
| `Dispatcher.DryRunNeverFailsConditions` | up_esb/plexmo/dispatcher.py:108-127 | A dry run never raises a precondition or postcondition failure |
| `Dispatcher.PreconditionFailureNumber` | up_esb/plexmo/dispatcher.py:101-111 | A precondition failure happens only outside a dry run, and its number is the 1-based position of the first interval group holding a falsy precondition, all earlier groups holding |
| `Dispatcher.SecondGroupFailure` | up_esb/plexmo/dispatcher.py:101-111 | Two true conditions in group 1 and a false one in group 2 give the failure number 2, not 3 |
| `Monitor.ShadowRecords` | up_esb/plexmo/monitor.py:56-70 | Every processed node, and only those, carries its initial record: not processed, status NOT_STARTED, empty result, its action, name, predecessors and successors |
| `Monitor.Shadow` | up_esb/plexmo/monitor.py:54-72 | Specification of the shadow graph after the first k nodes: each node added with its initial record, then its edges |
| `Monitor.StatusOf` | up_esb/plexmo/monitor.py:89-94 | Specification of the status search: the first node with the name, or UNKNOWN |
| `Monitor.Updated` | up_esb/plexmo/monitor.py:96-99 | Specification of an update: one node gets the status and is marked processed |
| `Monitor.ShadowEdges` | up_esb/plexmo/monitor.py:65-66 | The shadow holds exactly the edges leaving the processed nodes |
| `Monitor.ShadowNodes` | up_esb/plexmo/monitor.py:56-66 | The shadow's nodes are the processed nodes and their successors, each once |
| `Monitor.ShadowOfGraph` | up_esb/plexmo/monitor.py:54-72 | The shadow of a whole graph has exactly its node ids, each once, exactly its edges and the initial record of every node |
| `Monitor.ShadowComplete` | up_esb/plexmo/monitor.py:54-72 | Every node of the shadow of a whole graph has a record |
| `Monitor.ShadowKeepsChainOrder` | up_esb/plexmo/monitor.py:54-72 | A graph whose edges lead backwards or to the next node, such as a sequential chain, is shadowed with the same node order |
| `Monitor.ShadowPrefixOrder` | up_esb/plexmo/monitor.py:56-66 | For such a graph, the shadow after k nodes lists the first k nodes, perhaps followed by the next one |
| `Monitor.SuccessorsWithinNext` | up_esb/plexmo/monitor.py:66 | For such a graph, a node's successors are earlier nodes or the next one |
| `Monitor.ChainStep` | up_esb/plexmo/monitor.py:58-66 | For such a graph, one node's turn extends the node order by at most the next node |
| `Monitor.EnumeratesAt` | up_esb/plexmo/monitor.py:66 | The enumeration of a node's successors lists exactly the targets of its edges |
| `Monitor.AppendMissingIsAddAllMissing` | up_esb/plexmo/monitor.py:66 | Adding the edges from a list appends the new targets as `add_edge` would, one at a time |
| `Monitor.AppendMissingMembers` | up_esb/plexmo/monitor.py:66 | After adding the edges, a node is in the graph exactly when it was before or is a target |
| `Monitor.AppendMissingDistinct` | up_esb/plexmo/monitor.py:66 | Adding the edges never lists a node twice |
| `Monitor.AppendMissingNext` | up_esb/plexmo/monitor.py:66 | Targets that are present, or are one new node, add at most that node |
| `Monitor.AppendMissingPresent` | up_esb/plexmo/monitor.py:66 | Targets that are all present add nothing |
| `Monitor.StepByEdges` | up_esb/plexmo/monitor.py:58-66 | One node's turn is `add_node` followed by one `add_edge` per successor |
| `Monitor.FanIsComprehension` | up_esb/plexmo/monitor.py:66 | The edges added from a node are the pairs of the node with each listed successor |
| `Monitor.AddWithEdges` | up_esb/plexmo/monitor.py:58-70 | The loop body adds the node, its record and its edges as one turn of the specification |
| `Monitor.PreprocessGraph` | up_esb/plexmo/monitor.py:51-72 | Gives the shadow of the whole graph, or raises KeyError at the first node without a record |
| `Monitor.StatusOfSpec` | up_esb/plexmo/monitor.py:89-94 | The search returns the status of the first node with the name, and UNKNOWN when none has it |
| `Monitor.UpdateThenStatus` | up_esb/plexmo/monitor.py:83-99 | After a node is updated, asking for its name, when no earlier node carries it, reports the new status |
| `Monitor.UpdateOtherStatus` | up_esb/plexmo/monitor.py:83-99 | Updating a node leaves the status found for any name that node does not carry |
| `Monitor.PlanMonitor.FromShadow` | up_esb/plexmo/monitor.py:32-36 | A monitor over a shadow starts IDLE with action status NOT_STARTED |
| `Monitor.PlanMonitor.New` | up_esb/plexmo/monitor.py:32-39 | Construction gives an IDLE monitor with action status NOT_STARTED over the shadow of the graph, or raises KeyError at the first node without a record |
| `Monitor.PlanMonitor.GetStatus` | up_esb/plexmo/monitor.py:41-44 | Reports the stored status |
| `Monitor.PlanMonitor.SetStatus` | up_esb/plexmo/monitor.py:46-49 | Stores the status and changes nothing else, so reading it back gives the value set |
| `Monitor.PlanMonitor.GetActionStatus` | up_esb/plexmo/monitor.py:83-94 | Returns, and caches, the status of the first node with the name, or UNKNOWN; the graph is unchanged |
| `Monitor.PlanMonitor.UpdateActionStatus` | up_esb/plexmo/monitor.py:96-99 | Sets the status and marks processed on that one node and no other; an unknown id (KeyError) changes nothing |
| `Monitor.ProcessActionResult` | up_esb/plexmo/monitor.py:101-108 | Raises the classified exception exactly when it is not a dry run, and otherwise only warns with it |
| `TaskManagement.TaskTracker.constructor` | up_esb/execution/task_manager.py:27-30 | A new tracker counts no task |
| `TaskManagement.TaskTracker.Enter` | up_esb/execution/task_manager.py:32-35 | Entering counts one more task |
| `TaskManagement.TaskTracker.Exit` | up_esb/execution/task_manager.py:37-40 | Leaving counts one task fewer |
| `TaskManagement.ExecutionOf` | up_esb/execution/task_manager.py:79-98 | Exactly a single task reaches the executor; any other number of tasks, none included, raises NotImplementedError |
| `TaskManagement.AcceptedSpec` | up_esb/execution/task_manager.py:134-135 | The accepted ids are those that are graph nodes, each as often as it was given |
| `TaskManagement.AcceptedNodes` | up_esb/execution/task_manager.py:134-135 | Ids that are all graph nodes are all accepted, in their order |
| `TaskManagement.TaskContainer.constructor` | up_esb/execution/task_manager.py:52-58 | A new container is empty and has no executor |
| `TaskManagement.TaskContainer.AddTask` | up_esb/execution/task_manager.py:71-77 | An id that is not a graph node is refused and changes nothing; otherwise it is appended |
| `TaskManagement.TaskContainer.SetExecutor` | up_esb/execution/task_manager.py:87-89 | Sets the executor and keeps the tasks |
| `TaskManagement.TaskContainer.ExecuteTask` | up_esb/execution/task_manager.py:79-93 | Executes as the execution specification says for the container's tasks and executor |
| `TaskManagement.TaskManager.constructor` | up_esb/execution/task_manager.py:104-109 | A new manager has an empty queue and no dispatch callback |
| `TaskManagement.TaskManager.AddTask` | up_esb/execution/task_manager.py:111-123 | As written, always queues exactly one container and returns true; the container is empty when the id was refused |
| `TaskManagement.TaskManager.AddTaskChecked` | up_esb/execution/task_manager.py:115-123 | As intended, queues a container with the id and returns true exactly when the id is a graph node, and otherwise queues nothing |
| `TaskManagement.TaskManager.AddTasks` | up_esb/execution/task_manager.py:125-141 | Queues one container holding the accepted ids in their order and returns true |
| `TaskManagement.TaskManager.RemoveTask` | up_esb/execution/task_manager.py:143-149 | Always raises NotImplementedError |
| `TaskManagement.TaskManager.RemoveTasks` | up_esb/execution/task_manager.py:151-157 | Always raises NotImplementedError |
| `TaskManagement.TaskManager.SetDispatchCallback` | up_esb/execution/task_manager.py:159-161 | Sets the dispatch callback and leaves the queue |
| `TaskManagement.TaskManager.Step` | up_esb/execution/task_manager.py:163-170 | Does nothing on an empty queue; otherwise removes the front container and executes its tasks |
| `TaskManagement.EmptyContainerRaises` | up_esb/execution/task_manager.py:79-123 | Executing the empty container a refused id leaves raises NotImplementedError |
| `TaskManagement.QueueEveryNode` | tests/execution/test_task_manager.py:46-64 | Queuing one container per graph node makes the queue grow by the node count, and a node with at most one successor queues itself |
| `BehaviorTree.FirstLeaf` | up_esb/mbt.py:61-64 | Following first subnodes ends at a node without subnodes |
| `BehaviorTree.NextAction` | up_esb/mbt.py:61-69 | Specification of `get_next_action`: the first action of the first leaf, or None for RuntimeError |
| `BehaviorTree.ExecuteNode` | up_esb/mbt.py:85-100 | Specification of `execute`: the first subnode is executed and dropped once spent; otherwise the node's own action runs; a node with neither succeeds |
| `BehaviorTree.PrependAt` | up_esb/mbt.py:145-150 | Specification of where `prepend_actions` attaches the new node: as last subnode of the end of the first-subnode chain |
| `BehaviorTree.NextActionIsLeafAction` | up_esb/mbt.py:61-69 | The next action exists exactly when the first leaf has actions, and is then that leaf's first action; otherwise RuntimeError |
| `BehaviorTree.ExecuteNodeAction` | up_esb/mbt.py:71-83 | The first action is removed and performed once, its result is reported and judged by the success function, and the node's actions and subnodes are cleared exactly when the continuation function rejects the result |
| `BehaviorTree.ExecuteRunsNextAction` | up_esb/mbt.py:85-100 | Executing a node performs exactly the action the next-action search reports, judged by the success function of the leaf holding it; with none it performs nothing and succeeds |
| `BehaviorTree.ExecuteShrinks` | up_esb/mbt.py:85-100 | Executing a node that has a next action leaves strictly less work, since spent subnodes are popped |
| `BehaviorTree.ForestSizeCons` | up_esb/mbt.py:90-95 | The work of a list of subnodes is the work of the first plus that of the rest |
| `BehaviorTree.PrependComesNext` | up_esb/mbt.py:145-150 | After prepending, the next action of the tree is the next action of the new node |
| `BehaviorTree.EmptyRoot` | up_esb/mbt.py:105 | The root of a new tree has neither actions nor subnodes |
| `BehaviorTree.MutableBehaviorTree.constructor` | up_esb/mbt.py:104-108 | A new tree is active, has an empty root, no failures and no result |
| `BehaviorTree.MutableBehaviorTree.SetActions` | up_esb/mbt.py:118-131 | The root's subnodes are replaced by exactly one new node holding the actions, and the tree is active |
| `BehaviorTree.MutableBehaviorTree.AppendActions` | up_esb/mbt.py:153-168 | The new node follows all the root's subnodes, and the tree is active |
| `BehaviorTree.MutableBehaviorTree.PrependActions` | up_esb/mbt.py:133-151 | The new node is attached as last subnode of the end of the first-subnode chain, and the tree is active |
| `BehaviorTree.MutableBehaviorTree.HasNextAction` | up_esb/mbt.py:170-172 | True exactly when the root has subnodes |
| `BehaviorTree.MutableBehaviorTree.GetNextAction` | up_esb/mbt.py:174-176 | The first action of the root's first leaf, or RuntimeError when it has none |
| `BehaviorTree.MutableBehaviorTree.Execute` | up_esb/mbt.py:178-190 | The root is executed; a failure is counted, a success leaving the root without subnodes deactivates the tree, the last result is stored, and the success flag is returned |
| `BehaviorTree.MutableBehaviorTree.LastActionResult` | up_esb/mbt.py:192-194 | Returns the stored result of the last action |
| `ActionDefinitions.RunChecks` | up_esb/components/actions.py:50-75 | The checks run in order; the run succeeds exactly when every check returns its expected value, and then reports whether there was any check; otherwise the first failing check raises, as a failed assertion or as a repeated `expected_value` keyword |
| `ActionDefinitions.Passes` | up_esb/components/actions.py:55-72 | A check passes when it can be called with `expected_value` and its own keywords and returns its expected value |
| `ActionDefinitions.RunOptionalChecks` | up_esb/components/actions.py:50-67 | A missing list counts as empty and gives false |
| `ActionDefinitions.ActionDefinition.constructor` | up_esb/components/actions.py:22-28 | A new definition keeps its name and parameters, with empty check lists, duration 0 and no executable |
| `ActionDefinitions.ActionDefinition.AddPreconditions` | up_esb/components/actions.py:30-32 | Replaces the precondition list and nothing else |
| `ActionDefinitions.ActionDefinition.AddEffects` | up_esb/components/actions.py:34-36 | Replaces the effect list and nothing else |
| `ActionDefinitions.ActionDefinition.AddPrecondition` | up_esb/components/actions.py:38-40 | Appends one (callable, output, keyword arguments) check to the preconditions and changes nothing else |
| `ActionDefinitions.ActionDefinition.AddEffect` | up_esb/components/actions.py:42-44 | Appends one check to the effects and changes nothing else |
| `ActionDefinitions.ActionDefinition.SetDuration` | up_esb/components/actions.py:46-48 | Overwrites the duration and nothing else |
| `ActionDefinitions.ActionDefinition.Call` | up_esb/components/actions.py:77-84 | Fails on a precondition exactly when one does not pass; fails on an effect exactly when the preconditions pass and an effect does not; raises NotImplementedError exactly when all checks pass and no executable is set; otherwise runs the executable |
| `LegacyActionDefinitions.ActionDefinition.constructor` | up_bridge/components/actions.py:22-28 | A new definition keeps its name and parameters, with empty check lists, duration 0 and no executable |
| `LegacyActionDefinitions.ActionDefinition.AddPreconditions` | up_bridge/components/actions.py:30-31 | Replaces the precondition list and nothing else |
| `LegacyActionDefinitions.ActionDefinition.AddEffects` | up_bridge/components/actions.py:33-34 | Replaces the effect list and nothing else |
| `LegacyActionDefinitions.ActionDefinition.AddPrecondition` | up_bridge/components/actions.py:36-37 | Appends one check to the preconditions and changes nothing else |
| `LegacyActionDefinitions.ActionDefinition.AddEffect` | up_bridge/components/actions.py:39-40 | Appends one check to the effects and changes nothing else |
| `LegacyActionDefinitions.ActionDefinition.SetDuration` | up_bridge/components/actions.py:42-43 | Overwrites the duration and nothing else |
| `LegacyActionDefinitions.ActionDefinition.Call` | up_bridge/components/actions.py:45-70 | The same check order as the newer class, but a missing action fails only as a call of None (TypeError), once every check has passed |
| `LegacyDispatch.StatusText` | up_bridge/plexmo/dispatcher.py:23-80 | The status text is "finished" exactly for a finished run and "failure" exactly for a failed one |
| `LegacyDispatch.StepRun` | up_bridge/plexmo/dispatcher.py:37-64 | Specification of one iteration: dispatch the current action; on failure replan at most once, otherwise fail; on success advance, or restart after "!replan" |
| `LegacyDispatch.Run` | up_bridge/plexmo/dispatcher.py:33-69 | Specification of the loop: iterations while the loop condition holds, a missing callback raising, within a bound on iterations |
| `LegacyDispatch.RunStep` | up_bridge/plexmo/dispatcher.py:33-64 | While the loop condition holds and a callback is set, a run is one iteration followed by the rest |
| `LegacyDispatch.FailureRule` | up_bridge/plexmo/dispatcher.py:39-53 | A failed action becomes the last failed one; the run fails exactly unless the action is not the one that failed last, no replan happened since the last success, a replan callback is set and it returns a plan, in which case that plan restarts at position 0 |
| `LegacyDispatch.SuccessRule` | up_bridge/plexmo/dispatcher.py:54-64 | A success clears the replanned flag and the last failure if it was this action, and moves to the next position, or back to 0 after "!replan" |
| `LegacyDispatch.ReplanAtMostOnce` | up_bridge/plexmo/dispatcher.py:39-53 | After a replan, the next failure is final |
| `LegacyDispatch.SucceedingRunEnds` | tests/test_dispatcher.py:47-52 | With a callback that always succeeds and no "!replan" action the loop ends without failure |
| `LegacyDispatch.FailingRunFails` | tests/test_dispatcher.py:54-59 | With a callback that always fails, a non-empty plan fails within two iterations, provided a replan never gives an empty plan |
| `LegacyDispatch.SequentialPlanDispatcher.constructor` | up_bridge/plexmo/dispatcher.py:21-25 | A new dispatcher is "idle" with no plan and no callbacks |
| `LegacyDispatch.SequentialPlanDispatcher.SetDispatchCallback` | up_bridge/plexmo/dispatcher.py:71-77 | Sets the dispatch callback and restarts the count of its calls, which the model uses to index the new callback's answers; no other field changes |
| `LegacyDispatch.SequentialPlanDispatcher.SetReplanCallback` | up_bridge/plexmo/dispatcher.py:82-84 | Sets the replan callback and changes no other field |
| `LegacyDispatch.SequentialPlanDispatcher.StatusOf` | up_bridge/plexmo/dispatcher.py:79-80 | Returns the text of the stored status |
| `LegacyDispatch.SequentialPlanDispatcher.DispatchNext` | up_bridge/plexmo/dispatcher.py:37-64 | One iteration of the loop updates plan, position, status, replanned flag and last failure as the step specification says |
| `LegacyDispatch.SequentialPlanDispatcher.ExecutePlan` | up_bridge/plexmo/dispatcher.py:27-69 | The run follows the loop specification from position 0; it returns true with "finished" exactly when it ends without failure, false with "failure" otherwise, and raises when no dispatch callback is set |
| `UserTypes.Create` | up_bridge/components/user_types.py:21-23 | An instance of the class itself keeps the name and the keyword arguments as parameters |
| `UserTypes.Eq` | up_bridge/components/user_types.py:31-32 | Specification of `__eq__` as written: an instance of the class with equal parameters, names not compared |
| `UserTypes.Hash` | up_bridge/components/user_types.py:34-35 | Specification of `__hash__`: the hash of the name alone |
| `UserTypes.EqIgnoresName` | up_bridge/components/user_types.py:31-32 | Equality ignores names; two instances of one class are equal exactly when their parameters are; equality is reflexive |
| `UserTypes.EqualButHashDiffers` | up_bridge/components/user_types.py:31-35 | Two instances with the same parameters under names that hash apart are equal yet hash differently |
| `UserTypes.EqNamedHashConsistent` | up_bridge/components/user_types.py:31-35 | With names compared as well, equal instances hash alike under every string hash |
| `UserTypes.Str` | up_bridge/components/user_types.py:37-38 | The text of an instance is its name |
| `UserTypes.Repr` | up_bridge/components/user_types.py:25-26 | The representation is the class name followed by the name in parentheses |
| `UserTypes.Keys` | up_bridge/components/user_types.py:40-41 | The keys are exactly the parameter names |
| `UserTypes.Values` | up_bridge/components/user_types.py:43-44 | The values are exactly the parameter values |
| `UserTypes.EqualKeysValues` | up_bridge/components/user_types.py:31-44 | Equal instances have the same keys and values, whatever their names |
| `ExpressionManager.AutoPromote` | up_esb/components/expression_manager.py:44 | A single expression is promoted to the one-element list holding it |
| `ExpressionManager.MapExpression` | up_esb/components/expression_manager.py:43-99 | Only the first element of the promoted list is translated, and the translation of that node is the result |
| `ExpressionManager.MapNode` | up_esb/components/expression_manager.py:46-94 | The node translation never fails with ValueError |
| `ExpressionManager.MapCompare` | up_esb/components/expression_manager.py:59-82 | A comparison translation never fails with ValueError |
| `ExpressionManager.Convert` | up_esb/components/expression_manager.py:28-41 | Specification of `convert`: the translation wrapped in an Expression node |
| `ExpressionManager.MapAll` | up_esb/components/expression_manager.py:49-58 | The list of translated arguments has one entry per argument |
| `ExpressionManager.MapExpressionIsSome` | up_esb/components/expression_manager.py:43-99 | A successful translation is a tree and never embeds None |
| `ExpressionManager.MapNodeNoneFree` | up_esb/components/expression_manager.py:46-94 | No tree the node translation returns contains None |
| `ExpressionManager.MapAllNoneFree` | up_esb/components/expression_manager.py:49-58 | No translated argument contains None |
| `ExpressionManager.MapCompareNoneFree` | up_esb/components/expression_manager.py:59-82 | No translated comparison contains None |
| `ExpressionManager.ConvertNeverValueError` | up_esb/components/expression_manager.py:28-41 | `convert` never reaches its ValueError, and every conversion is an Expression node holding no None |
| `ExpressionManager.TranslationPreservesMeaning` | up_esb/components/expression_manager.py:46-94 | A condition of the supported fragment that has a value translates without error into a Python tree with the same value under the model's abstract evaluator of the intended tree: Not to `not`, And/Or to short-circuit `and`/`or`, Equals/Le/Lt to `==`/`<=`/`<` read by operator and operands, constants to the same constant, fluents to a call of their function |
| `ExpressionManager.JunctionPreservesMeaning` | up_esb/components/expression_manager.py:49-58 | The translated arguments of And/Or, evaluated with Python's short circuit, give the conjunction or disjunction of the arguments |
| `ExpressionManager.FluentArgumentsDropped` | up_esb/components/expression_manager.py:92-94 | A fluent applied to an argument becomes a call without arguments, whose value differs from the fluent's whenever its function tells the two apart |
| `ExpressionManager.EvalAst` | up_esb/plexmo/dispatcher.py:102-104 | The model's abstract evaluator of the intended tree, standing for `eval` in a context binding each name to its fluent function; comparisons read by operator and operands |
| `ExpressionManager.CompilesIffNoComparison` | up_esb/components/expression_manager.py:46-82 | As written, a translated condition is accepted by `compile` exactly when it holds no Equals, Le or Lt node (the comparison node built with `op`, `left` and `right` lacks the `ops` field) and every And/Or in it has at least two arguments (`compile` refuses a BoolOp with fewer than two values) |
| `ExpressionManager.AllCompileIffNoneCompares` | up_esb/components/expression_manager.py:49-58 | The translated arguments of And/Or all compile exactly when none of the arguments holds a comparison or an And/Or with fewer than two arguments |
| `ExpressionManager.ConvertCompilesIffNoComparison` | up_esb/components/expression_manager.py:28-41 | The Expression tree `convert` returns compiles exactly when the condition holds no comparison and every And/Or in it has at least two arguments |
| `ExpressionManager.SingleAndRejected` | up_esb/components/expression_manager.py:49-58 | `And(true)` built by hand translates to a BoolOp with one value, which holds no comparison yet does not compile |

## Left out

- Python set and dict enumeration order: the order in which a set of pending nodes, the successors of a node or a partial order's actions are visited is a parameter (or the model proves a result that does not depend on it); hash-based iteration order is not modelled.
- networkx internals: `DiGraph` is modelled as a node list with attribute dictionaries and an edge set; node insertion order is kept, edge insertion order is not.
- Printing and logging (`print`, the verbose flags, the logger) have no effect on the modelled state and are left out.
- `_add_parallel` in up_bridge/components/graph.py:50-56 is never called and is left out.
- User callables (the API actions, fluent functions and executors) are function-typed parameters; what they do is not part of this model.
- The classification of an action result in `process_action_result` is a parameter `classify`; its Python truthiness rules are not part of this model.
- Python `eval` of the generated tree is replaced by the model's abstract evaluator of the intended tree (`ExpressionManager.EvalAst`), which reads a comparison by its operator and operands; Python's `compile` is modelled only as far as it rejects the comparison nodes the translator builds and a BoolOp with fewer than two values (`ExpressionManager.Compiles`, see Findings), and Python's own evaluation rules outside this fragment are left out.
- The unified-planning plumbing (type registry, `create_types`, `get_type`, `create_fluent`, `create_fluents`, `set_if_api_signature`, `set_initial_values`, `solve`, `get_name_and_signature`, `create_objects`, `create_enum_objects`, `define_problem`) builds planner objects through a library that is not part of this model.
- ExecutionBridge.Bridge.SetFluentFunctions: does not record `_api_function_names`, which only feeds the planner plumbing above.
- Concurrency: `TaskTracker.wait`, the locks taken by `TaskContainer`'s context manager and the executor threads are left out; every task runs to completion in sequence.
- Durations are kept as the text and the real value of a fraction, and a missing duration as `None`; floating point conversion and its formatting are not modelled.
- The text of a tuple item (`str(action)`) is taken as given.
- BehaviorTree: node identity and the tree back-reference are left out; `get_executable_action` is the oracle `perform`, and the root's zero-argument lambdas are not modelled.
- `add_preconditions(None)` is not modelled; the model always passes a list.
- Python assertions are modelled as always enabled; running under `-O` is left out.
- List aliasing in `add_precondition` (the caller's list is stored, not copied) is left out.
- LegacyDispatch.SequentialPlanDispatcher.ExecutePlan: runs with a fuel bound and reports `Unbounded` when the fuel runs out, because a replanning callback may loop forever; call counts of the oracles and `ActionInstance` equality (modelled by a unique id) are left out.
- Dispatcher: the executor used by `execute_plan` is the parameter `execute`.
- UserTypes: the `__dict__` method, the priority of a subclass's reflected `__eq__`, and the ordered views returned by `keys`/`values` (modelled as sets) are left out.
- Status enumerations declare only the members the code references.
- Monitor.ShadowRecords: `_preprocess_graph` stores each node's predecessors and successors as lists in networkx order (up_esb/plexmo/monitor.py:67-68); the model's initial record keeps them as sets, so their order is not modelled.
- Monitor.PlanMonitor.UpdateActionStatus: a `KeyError` on an unknown id is modelled as `ok == false` with no change.

## Findings

| source | as written | input that shows it | evidently intended | confidence | as-written member | corrected member |
|---|---|---|---|---|---|---|
| up_esb/components/graph.py:185-202 | The join target of a new time group is looked up by name among all nodes, so a later step named like an earlier one is joined into the earlier node | Steps a, b at time 0, c, d at time 1, c again at time 2: the pending node 3 is joined to node 3 itself, a self-loop, and node 5 is never joined | Join the pending nodes into the node of the first step of the next group | not executed | `DependencyGraph.TimeTriggeredRepeatedJoin` | `DependencyGraph.TimeTriggeredShape` |
| up_esb/bridge.py:399-402 | `convert` is called with a `parameters` keyword argument it does not accept | Any step whose precondition or effect list is non-empty: the call raises TypeError and no executable graph is built | Convert each condition with the one-argument `convert` | not executed | `ExecutionBridge.AsWrittenRejectsConditions` | `ExecutionBridge.ResolvedPreconditions` |
| up_esb/execution/task_manager.py:115-123 | A container is always truthy, so `add_task` returns True and queues a container even when the id is not a node of the graph | `add_task(42)` on a graph without node 42 returns True and queues an empty container, which raises when executed | Refuse the id and queue nothing | not executed | `TaskManagement.TaskManager.AddTask` | `TaskManagement.TaskManager.AddTaskChecked` |
| up_bridge/components/user_types.py:31-35 | Equality compares parameters, hashing uses the name | Two definitions with equal parameters and different names are equal but may hash differently | Equal objects hash equally: compare the name too | not executed | `UserTypes.EqualButHashDiffers` | `UserTypes.EqNamedHashConsistent` |
| up_esb/components/expression_manager.py:59-82 | Comparisons are built as `ast.Compare(op=..., left=..., right=...)`, but Python's comparison node has the fields `ops`, `left` and `comparators` | Any precondition such as `Equals(f, 1)`: `compile` in the dispatcher raises TypeError for the missing `ops` field, so the condition is never evaluated | Build `ast.Compare(left=..., ops=[op], comparators=[right])`, which evaluates to the comparison of the two operands | not executed | `ExpressionManager.CompilesIffNoComparison` | `ExpressionManager.TranslationPreservesMeaning` |
