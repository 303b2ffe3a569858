/** The task manager (up_esb/execution/task_manager.py): a FIFO queue of task
    containers, each holding the ids of graph nodes to execute together.
    The executor is an opaque token; what it does with a task is not part of
    this model, only which task it is handed. */
module TaskManagement {
  import opened Wrappers
  import opened DiGraph
  import opened ExecutionBridge

  /** `TaskTracker`: counts the tasks under way. Waiting for the count to
      reach zero needs a condition variable and is not modelled. */
  class TaskTracker {
    var tasks: int

    constructor ()
      ensures tasks == 0
    {
      tasks := 0;
    }

    /** `__enter__`: one more task under way. */
    method Enter()
      modifies this
      ensures tasks == old(tasks) + 1
    {
      tasks := tasks + 1;
    }

    /** `__exit__`: one task fewer under way. */
    method Exit()
      modifies this
      ensures tasks == old(tasks) - 1
    {
      tasks := tasks - 1;
    }

    /** `wait` would return at once. */
    predicate Idle()
      reads this
    {
      tasks <= 0
    }
  }

  /** What `execute_task` does: hand the single task to the executor, raise
      NotImplementedError for any other number of tasks, or fail on the
      executor that was never set. */
  datatype Execution =
    | Executed(executor: nat, task: int)
    | NotImplemented
    | NoExecutor

  /** The outcome of executing the tasks `tasks` with `executor`. */
  function ExecutionOf(tasks: seq<int>, executor: Option<nat>): (e: Execution)
    ensures e.Executed? <==> |tasks| == 1 && executor.Some?
    ensures e.Executed? ==> e.task == tasks[0] && e.executor == executor.value
    ensures e.NotImplemented? <==> |tasks| != 1
  {
    if |tasks| == 1 then
      if executor.Some? then Executed(executor.value, tasks[0]) else NoExecutor
    else NotImplemented
  }

  /** The ids of `ids` that are nodes of `g`, in their order. */
  function Accepted(ids: seq<int>, g: ExecGraph): seq<int>
  {
    if ids == [] then []
    else
      var front := Accepted(ids[..|ids| - 1], g);
      if ids[|ids| - 1] in g.nodes then front + [ids[|ids| - 1]] else front
  }

  /** The accepted ids are the ids that are graph nodes, each as often as it
      was given, and never more of them than were given. */
  lemma {:induction false} AcceptedSpec(ids: seq<int>, g: ExecGraph)
    ensures |Accepted(ids, g)| <= |ids|
    ensures forall x :: multiset(Accepted(ids, g))[x] == if x in g.nodes then multiset(ids)[x] else 0
    decreases |ids|
  {
    if ids != [] {
      var front := ids[..|ids| - 1];
      AcceptedSpec(front, g);
      assert ids == front + [ids[|ids| - 1]];
    }
  }

  /** Every id of a graph is accepted, in its order. */
  lemma {:induction false} AcceptedNodes(ids: seq<int>, g: ExecGraph)
    requires forall i :: 0 <= i < |ids| ==> ids[i] in g.nodes
    ensures Accepted(ids, g) == ids
    decreases |ids|
  {
    if ids != [] {
      AcceptedNodes(ids[..|ids| - 1], g);
      assert ids == ids[..|ids| - 1] + [ids[|ids| - 1]];
    }
  }

  /** `TaskContainer`: the tasks to execute together, over the graph they
      come from. */
  class TaskContainer {
    const graph: ExecGraph
    var tasks: seq<int>
    var executor: Option<nat>

    constructor (graph: ExecGraph)
      ensures this.graph == graph && tasks == [] && executor == None
    {
      this.graph := graph;
      tasks := [];
      executor := None;
    }

    /** `add_task(task_id)`: false and no change for an id that is not a
        node of the graph; otherwise the id is appended. */
    method AddTask(id: int) returns (ok: bool)
      modifies this
      ensures ok <==> id in graph.nodes
      ensures tasks == if ok then old(tasks) + [id] else old(tasks)
      ensures executor == old(executor)
    {
      if id !in graph.nodes {
        return false;
      }
      tasks := tasks + [id];
      return true;
    }

    /** `set_executor(executor)`. */
    method SetExecutor(e: nat)
      modifies this
      ensures executor == Some(e) && tasks == old(tasks)
    {
      executor := Some(e);
    }

    /** `execute_task()`: the single task goes to the executor; any other
        number of tasks, none included, raises NotImplementedError. */
    method ExecuteTask() returns (e: Execution)
      ensures e == ExecutionOf(tasks, executor)
    {
      if |tasks| == 1 {
        if executor.None? {
          return NoExecutor;
        }
        e := Executed(executor.value, tasks[0]);
      } else {
        e := NotImplemented;
      }
    }
  }

  /** The error every removal raises. */
  datatype RemovalError = RemovalNotImplemented

  /** `TaskManager`: the execution queue of containers over one graph, with
      the executor every container is given. `contents` is the task list of
      each queued container, front first. */
  class TaskManager {
    const graph: ExecGraph
    const executor: nat
    var queue: seq<TaskContainer>
    var dispatchCallback: Option<nat>
    ghost var contents: seq<seq<int>>

    ghost predicate Valid()
      reads this, queue
    {
      && |queue| == |contents|
      && forall i :: 0 <= i < |queue| ==> queue[i].tasks == contents[i] && queue[i].executor == Some(executor)
    }

    /** `TaskManager(plan, graph)`, with `executor` standing for the executor
        chosen for the plan. */
    constructor (graph: ExecGraph, executor: nat)
      ensures Valid()
      ensures this.graph == graph && this.executor == executor
      ensures queue == [] && contents == [] && dispatchCallback == None
    {
      this.graph := graph;
      this.executor := executor;
      queue := [];
      contents := [];
      dispatchCallback := None;
    }

    /** `add_task(task_id)` as written: the container is queued and true is
        returned whether or not it accepted the id, since the container
        object itself is always truthy. A rejected id queues an empty
        container. */
    method AddTask(id: int) returns (ok: bool)
      requires Valid()
      modifies this
      ensures Valid() && ok
      ensures contents == old(contents) + [if id in graph.nodes then [id] else []]
      ensures |queue| == |old(queue)| + 1 && fresh(queue[|queue| - 1])
      ensures dispatchCallback == old(dispatchCallback)
    {
      var c := new TaskContainer(graph);
      var accepted := c.AddTask(id);
      assert c.tasks == if accepted then [id] else [];
      c.SetExecutor(executor);
      queue := queue + [c];
      contents := contents + [c.tasks];
      return true;
    }

    /** `add_task(task_id)` as evidently intended: a rejected id queues
        nothing and reports false. */
    method AddTaskChecked(id: int) returns (ok: bool)
      requires Valid()
      modifies this
      ensures Valid()
      ensures ok <==> id in graph.nodes
      ensures contents == if ok then old(contents) + [[id]] else old(contents)
      ensures dispatchCallback == old(dispatchCallback)
    {
      var c := new TaskContainer(graph);
      ok := c.AddTask(id);
      if !ok {
        return;
      }
      assert c.tasks == [id];
      c.SetExecutor(executor);
      queue := queue + [c];
      contents := contents + [c.tasks];
    }

    /** `add_tasks(task_ids)`: one container holding the ids the graph
        knows, in their order, is queued and true is returned. */
    method AddTasks(ids: seq<int>) returns (ok: bool)
      requires Valid()
      modifies this
      ensures Valid() && ok
      ensures contents == old(contents) + [Accepted(ids, graph)]
      ensures |queue| == |old(queue)| + 1 && fresh(queue[|queue| - 1])
      ensures dispatchCallback == old(dispatchCallback)
    {
      var c := new TaskContainer(graph);
      c.SetExecutor(executor);
      var i := 0;
      while i < |ids|
        invariant 0 <= i <= |ids|
        invariant fresh(c) && c.graph == graph && c.executor == Some(executor)
        invariant queue == old(queue) && contents == old(contents) && dispatchCallback == old(dispatchCallback)
        invariant c.tasks == Accepted(ids[..i], graph)
      {
        assert ids[..i + 1][..i] == ids[..i];
        var accepted := c.AddTask(ids[i]);
        i := i + 1;
      }
      assert ids[..i] == ids;
      queue := queue + [c];
      contents := contents + [c.tasks];
      return true;
    }

    /** `remove_task(task_id)`: not implemented. */
    method RemoveTask(id: int) returns (r: Result<bool, RemovalError>)
      ensures r == Err(RemovalNotImplemented)
    {
      return Err(RemovalNotImplemented);
    }

    /** `remove_tasks(task_ids)`: not implemented. */
    method RemoveTasks(ids: seq<int>) returns (r: Result<bool, RemovalError>)
      ensures r == Err(RemovalNotImplemented)
    {
      return Err(RemovalNotImplemented);
    }

    /** `set_dispatch_callback(callback)`. */
    method SetDispatchCallback(callback: nat)
      modifies this
      ensures dispatchCallback == Some(callback)
      ensures queue == old(queue) && contents == old(contents)
    {
      dispatchCallback := Some(callback);
    }

    /** `step()`: nothing on an empty queue; otherwise the front container
        leaves the queue and its tasks are executed. */
    method Step() returns (e: Option<Execution>)
      requires Valid()
      modifies this
      ensures Valid()
      ensures old(contents) == [] ==> e == None && contents == [] && queue == old(queue)
      ensures old(contents) != [] ==> e == Some(ExecutionOf(old(contents)[0], Some(executor))) && contents == old(contents)[1..]
      ensures dispatchCallback == old(dispatchCallback)
    {
      if queue == [] {
        return None;
      }
      var c := queue[0];
      queue := queue[1..];
      contents := contents[1..];
      var outcome := c.ExecuteTask();
      return Some(outcome);
    }
  }

  /** Executing what a rejected id leaves in the queue raises: an empty
      container has no single task to execute. */
  lemma EmptyContainerRaises(executor: nat)
    ensures ExecutionOf([], Some(executor)) == NotImplemented
  {
  }

  /** The queue the tests build: for each node in graph order, a container
      with all its successors when it has more than one (`succOrder` lists
      them as the graph yields them), otherwise a container for the node
      itself. Each node queues exactly one container. */
  method QueueEveryNode(m: TaskManager, succOrder: int -> seq<int>)
    requires m.Valid()
    modifies m
    ensures m.Valid()
    ensures |m.contents| == |old(m.contents)| + |m.graph.nodes|
    ensures forall i :: 0 <= i < |m.graph.nodes| && |succOrder(m.graph.nodes[i])| <= 1 ==>
              m.contents[|old(m.contents)| + i] == [m.graph.nodes[i]]
  {
    var k := 0;
    while k < |m.graph.nodes|
      invariant 0 <= k <= |m.graph.nodes|
      invariant m.Valid()
      invariant |m.contents| == |old(m.contents)| + k
      invariant m.contents[..|old(m.contents)|] == old(m.contents)
      invariant forall i :: 0 <= i < k && |succOrder(m.graph.nodes[i])| <= 1 ==>
                  m.contents[|old(m.contents)| + i] == [m.graph.nodes[i]]
    {
      var n := m.graph.nodes[k];
      if |succOrder(n)| > 1 {
        var _ := m.AddTasks(succOrder(n));
      } else {
        var _ := m.AddTask(n);
      }
      k := k + 1;
    }
  }
}
