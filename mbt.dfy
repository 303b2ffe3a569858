/** The mutable behaviour tree (up_esb/mbt.py). A node holds a list of
    actions, the functions that judge an action's result (success, and
    whether the node's remaining work continues) and a list of subnodes.
    Each `execute` runs at most one action: the first one found by
    following first subnodes. Nodes are values owned by the tree; running an
    action (`get_executable_action` followed by the call) is the oracle
    `perform`. */
module BehaviorTree {
  import opened Wrappers

  datatype Node<T, !R> = Node(
    actions: seq<T>,
    success: R -> bool,
    continuation: R -> bool,
    subnodes: seq<Node<T, R>>)

  /** A node with nothing left to do: `execute` on it returns true at once. */
  predicate Spent<T, R>(n: Node<T, R>)
  {
    |n.actions| == 0 && |n.subnodes| == 0
  }

  /** The node reached from `n` by following first subnodes. */
  function FirstLeaf<T, R>(n: Node<T, R>): (leaf: Node<T, R>)
    ensures |leaf.subnodes| == 0
  {
    if |n.subnodes| > 0 then FirstLeaf(n.subnodes[0]) else n
  }

  /** `Node.get_next_action`: the first action of the first leaf, or None
      where it has none (RuntimeError). */
  function NextAction<T, R>(n: Node<T, R>): Option<T>
  {
    if |n.subnodes| > 0 then NextAction(n.subnodes[0])
    else if |n.actions| > 0 then Some(n.actions[0])
    else None
  }

  /** The next action is the first action of the first leaf. */
  lemma {:induction false} NextActionIsLeafAction<T, R>(n: Node<T, R>)
    ensures NextAction(n).Some? <==> |FirstLeaf(n).actions| > 0
    ensures NextAction(n).Some? ==> NextAction(n).value == FirstLeaf(n).actions[0]
  {
    if |n.subnodes| > 0 {
      NextActionIsLeafAction(n.subnodes[0]);
    }
  }

  /** The work left below and in a node: its actions and its nodes. */
  function Size<T, R>(n: Node<T, R>): nat
  {
    1 + |n.actions| + ForestSize(n.subnodes)
  }

  function ForestSize<T, R>(ns: seq<Node<T, R>>): nat
  {
    if ns == [] then 0 else Size(ns[0]) + ForestSize(ns[1..])
  }

  /** What executing a node leaves: the node afterwards, the result of the
      action that ran (None when none did), and the success flag. */
  datatype Outcome<T, !R> = Outcome(node: Node<T, R>, result: Option<R>, success: bool)

  /** `Node.execute_action`: the first action is removed and performed; the
      success function judges the result; where the continuation function
      rejects it, the node's actions and subnodes are cleared. */
  function ExecuteNodeAction<T, R>(n: Node<T, R>, perform: T -> R): (o: Outcome<T, R>)
    requires |n.actions| > 0
    ensures o.result == Some(perform(n.actions[0]))
    ensures o.success == n.success(perform(n.actions[0]))
    ensures n.continuation(perform(n.actions[0])) ==> o.node.actions == n.actions[1..] && o.node.subnodes == n.subnodes
    ensures !n.continuation(perform(n.actions[0])) ==> Spent(o.node)
    ensures o.node.success == n.success && o.node.continuation == n.continuation
  {
    var result := perform(n.actions[0]);
    var popped := n.(actions := n.actions[1..]);
    Outcome(if n.continuation(result) then popped else popped.(actions := [], subnodes := []),
            Some(result), n.success(result))
  }

  /** `Node.execute`: delegate to the first subnode and drop it once it is
      spent; otherwise execute the node's own next action; a node with
      neither succeeds without running anything. */
  function ExecuteNode<T, R>(n: Node<T, R>, perform: T -> R): Outcome<T, R>
  {
    if |n.subnodes| > 0 then
      var sub := ExecuteNode(n.subnodes[0], perform);
      var rest := n.subnodes[1..];
      Outcome(n.(subnodes := if Spent(sub.node) then rest else [sub.node] + rest), sub.result, sub.success)
    else if |n.actions| > 0 then ExecuteNodeAction(n, perform)
    else Outcome(n, None, true)
  }

  /** `execute` runs exactly the action `get_next_action` reports, judged by
      the functions of the leaf that holds it; where there is none it runs
      nothing and succeeds. */
  lemma {:induction false} ExecuteRunsNextAction<T, R>(n: Node<T, R>, perform: T -> R)
    ensures NextAction(n).None? ==> ExecuteNode(n, perform).result == None && ExecuteNode(n, perform).success
    ensures NextAction(n).Some? ==> ExecuteNode(n, perform).result == Some(perform(NextAction(n).value))
    ensures NextAction(n).Some? ==> ExecuteNode(n, perform).success == FirstLeaf(n).success(perform(NextAction(n).value))
  {
    if |n.subnodes| > 0 {
      ExecuteRunsNextAction(n.subnodes[0], perform);
    }
  }

  lemma {:induction false} ForestSizeCons<T, R>(a: Node<T, R>, rest: seq<Node<T, R>>)
    ensures ForestSize([a] + rest) == Size(a) + ForestSize(rest)
  {
    assert ([a] + rest)[1..] == rest;
  }

  /** Executing a node whose next action exists leaves strictly less work,
      so repeated execution runs out of actions. */
  lemma {:induction false} ExecuteShrinks<T, R>(n: Node<T, R>, perform: T -> R)
    requires NextAction(n).Some?
    ensures Size(ExecuteNode(n, perform).node) < Size(n)
  {
    if |n.subnodes| > 0 {
      var first := n.subnodes[0];
      var rest := n.subnodes[1..];
      ExecuteShrinks(first, perform);
      assert n.subnodes == [first] + rest;
      ForestSizeCons(first, rest);
      var sub := ExecuteNode(first, perform);
      if !Spent(sub.node) {
        ForestSizeCons(sub.node, rest);
      }
    } else {
      var o := ExecuteNodeAction(n, perform);
      assert o.node.subnodes == [] || o.node.subnodes == n.subnodes;
    }
  }

  /** The node `prepend_actions` reaches: the end of the first-subnode chain
      gets `added` as its last subnode. */
  function PrependAt<T, R>(n: Node<T, R>, added: Node<T, R>): Node<T, R>
  {
    if |n.subnodes| > 0 then n.(subnodes := [PrependAt(n.subnodes[0], added)] + n.subnodes[1..])
    else n.(subnodes := [added])
  }

  /** After prepending, the next action is the first of the new node's own
      next action: its first action where it has one. */
  lemma {:induction false} PrependComesNext<T, R>(n: Node<T, R>, added: Node<T, R>)
    ensures NextAction(PrependAt(n, added)) == NextAction(added)
    ensures |PrependAt(n, added).subnodes| > 0
  {
    if |n.subnodes| > 0 {
      PrependComesNext(n.subnodes[0], added);
    }
  }

  /** The tree's root: never given actions of its own, and its functions
      reject every result. */
  function EmptyRoot<T, R>(): (root: Node<T, R>)
    ensures Spent(root)
  {
    Node([], _ => false, _ => false, [])
  }

  class MutableBehaviorTree<T, R> {
    var root: Node<T, R>
    var active: bool
    var totalFailureCount: nat
    var actionResult: Option<R>

    /** The root holds no actions of its own; only subnodes do. */
    ghost predicate Valid()
      reads this
    {
      |root.actions| == 0
    }

    constructor ()
      ensures Valid()
      ensures root == EmptyRoot() && active && totalFailureCount == 0 && actionResult == None
    {
      root := EmptyRoot();
      active := true;
      totalFailureCount := 0;
      actionResult := None;
    }

    /** `set_actions`: the root's subnodes are replaced by one new node
        holding the actions. */
    method SetActions(actions: seq<T>, success: R -> bool, continuation: R -> bool)
      requires Valid()
      modifies this
      ensures Valid()
      ensures root == old(root).(subnodes := [Node(actions, success, continuation, [])])
      ensures active && totalFailureCount == old(totalFailureCount) && actionResult == old(actionResult)
    {
      root := root.(subnodes := []);
      AppendActions(actions, success, continuation);
    }

    /** `append_actions`: a new node after all the root's subnodes. */
    method AppendActions(actions: seq<T>, success: R -> bool, continuation: R -> bool)
      requires Valid()
      modifies this
      ensures Valid()
      ensures root == old(root).(subnodes := old(root).subnodes + [Node(actions, success, continuation, [])])
      ensures active && totalFailureCount == old(totalFailureCount) && actionResult == old(actionResult)
    {
      root := root.(subnodes := root.subnodes + [Node(actions, success, continuation, [])]);
      active := true;
    }

    /** `prepend_actions`: walk down the first subnodes to the end of the
        chain and give that node the new node as a subnode. */
    method PrependActions(actions: seq<T>, success: R -> bool, continuation: R -> bool)
      requires Valid()
      modifies this
      ensures Valid()
      ensures root == PrependAt(old(root), Node(actions, success, continuation, []))
      ensures active && totalFailureCount == old(totalFailureCount) && actionResult == old(actionResult)
    {
      var added := Node(actions, success, continuation, []);
      // `path` holds the nodes passed on the way down, `node` the current one.
      var path: seq<Node<T, R>> := [];
      var node := root;
      while |node.subnodes| > 0
        invariant path == [] ==> node == root
        invariant forall i :: 0 <= i < |path| ==> |path[i].subnodes| > 0
        invariant path != [] ==> path[0] == root && node == path[|path| - 1].subnodes[0]
        invariant forall i :: 0 <= i < |path| - 1 ==> path[i + 1] == path[i].subnodes[0]
        decreases node
      {
        path := path + [node];
        node := node.subnodes[0];
      }
      var built := node.(subnodes := node.subnodes + [added]);
      var k := |path|;
      while k > 0
        invariant 0 <= k <= |path|
        invariant built == PrependAt(if k == |path| then node else path[k], added)
      {
        k := k - 1;
        built := path[k].(subnodes := [built] + path[k].subnodes[1..]);
      }
      root := built;
      active := true;
    }

    /** `has_next_action`. */
    function HasNextAction(): (b: bool)
      reads this
      ensures b <==> |root.subnodes| > 0
    {
      |root.subnodes| > 0
    }

    /** `get_next_action`: None stands for the RuntimeError. */
    function GetNextAction(): (a: Option<T>)
      reads this
      ensures a.Some? <==> |FirstLeaf(root).actions| > 0
      ensures a.Some? ==> a.value == FirstLeaf(root).actions[0]
    {
      NextActionIsLeafAction(root);
      NextAction(root)
    }

    /** `execute`: run the next action; a failure is counted, and a success
        that leaves the root without subnodes deactivates the tree. */
    method Execute(perform: T -> R) returns (ok: bool)
      requires Valid()
      modifies this
      ensures Valid()
      ensures var o := ExecuteNode(old(root), perform);
              && root == o.node && ok == o.success
              && actionResult == (if o.result.Some? then o.result else old(actionResult))
              && totalFailureCount == (if ok then old(totalFailureCount) else old(totalFailureCount) + 1)
              && active == (if ok && |root.subnodes| == 0 then false else old(active))
    {
      var o := ExecuteNode(root, perform);
      root := o.node;
      if o.result.Some? {
        actionResult := o.result;
      }
      ok := o.success;
      if !ok {
        totalFailureCount := totalFailureCount + 1;
      } else if !HasNextAction() {
        active := false;
      }
    }

    /** `get_last_action_result`. */
    function LastActionResult(): (r: Option<R>)
      reads this
      ensures r == actionResult
    {
      actionResult
    }
  }
}
