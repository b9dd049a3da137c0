/** No default-constructed value ever enters a store. */
module KnownValues {
  import opened Values
  import opened Variables
  import opened Behavior
  import opened ValueExpressions
  import opened Execution
  import opened ValueInvariants
  import T = Templates

  predicate IsKnown(v: Value) {
    v != Unknown
  }

  lemma ValueKnown(lib: Library, e: string)
    ensures Keeps(lib, IsKnown, e)
  {
  }

  /** All expressions and declarations of all trees keep to known values. */
  lemma {:induction false} TreeKnown(lib: Library, node: Node)
    ensures KeptBy(lib, IsKnown, node) && DeclaredBy(lib, IsKnown, node)
    decreases node, 1
  {
    forall e ensures Keeps(lib, IsKnown, e) {
      ValueKnown(lib, e);
    }
    TreesKnown(lib, node.children);
  }

  lemma {:induction false} TreesKnown(lib: Library, nodes: seq<Node>)
    ensures KeptBelow(lib, IsKnown, nodes) && DeclaredBelow(lib, IsKnown, nodes)
    decreases nodes, 0
  {
    if nodes != [] {
      TreeKnown(lib, nodes[0]);
      TreesKnown(lib, nodes[1..]);
    }
  }

  /** Every node keeps all values proper, in its outputs too. */
  lemma NodeKnown(lib: Library, node: Node, w: World)
    requires HoldsAround(IsKnown, w)
    ensures HoldsAfter(IsKnown, ExecNode(lib, node, w))
  {
    TreeKnown(lib, node);
    NodeKeeps(lib, IsKnown, node, w);
  }

  /** So does every task, whatever its outcome, rolled back or not; and its root starts in such a
      store. */
  lemma TaskKnown(lib: Library, rollback: bool, task: Task, behavior: Node, m: Machine)
    requires HoldsAround(IsKnown, m.world)
    ensures HoldsAround(IsKnown, Prepared(lib, task, T.Instantiated(behavior, task.params), m).world)
    ensures var out := ExecTask(lib, rollback, task, behavior, m);
      HoldsAround(IsKnown, out.machine.world) && Holds(IsKnown, out.result.outputs)
  {
    TreeKnown(lib, T.Instantiated(behavior, task.params));
    TaskKeeps(lib, IsKnown, rollback, task, behavior, m);
  }
}
