/** Replacing the expressions of a behaviour tree by others that the interpreter cannot tell
    apart: negation normal forms, or the same conditions with operands exchanged. */
module ExpressionRewriting {
  import opened Wrappers
  import opened Values
  import opened Variables
  import opened Behavior
  import opened TokenPrinting
  import opened ConditionGrammar
  import opened ConditionRewriting
  import opened Execution
  import C = Constraints
  import T = Templates

  /** `d` is `n` with expressions replaced as `swap` allows, at any depth. */
  predicate Reworded(swap: (string, string) -> bool, n: Node, d: Node)
    decreases n, 1
  {
    && d == n.(expression := d.expression, children := d.children)
    && (n.expression == d.expression || (n.expression != "" && d.expression != "" && swap(n.expression, d.expression)))
    && RewordedAll(swap, n.children, d.children)
  }

  predicate RewordedAll(swap: (string, string) -> bool, cs: seq<Node>, ds: seq<Node>)
    decreases cs, 0
  {
    |cs| == |ds| && (cs != [] ==> Reworded(swap, cs[0], ds[0]) && RewordedAll(swap, cs[1..], ds[1..]))
  }

  function Observing(n: Node, w: World): World {
    Polled(w).(store := ObserveAll(w.store, n.observation))
  }

  predicate Passes(lib: Library, n: Node, w: World) {
    n.expression == "" || C.Evaluated(lib, w.store, n.expression).satisfied
  }

  /** Every expression that a run of `n` from `w` evaluates finds a store that is `fine` for it. */
  predicate Met(lib: Library, fine: (string, Store) -> bool, n: Node, w: World)
    decreases n, 1
  {
    var w1 := Observing(n, w);
    !IsCancelled(w) ==>
    && (n.expression != "" ==> fine(n.expression, w1.store))
    && (Passes(lib, n, w1) ==> MetBelow(lib, fine, n.kind, n.children, w1))
  }

  /** Does a node of this kind run the child behind one that ended like this? */
  predicate GoesOn(kind: Kind, step: Step) {
    match kind
    case SEQUENCE => step.Succeeded()
    case SELECTOR => step.Returned? && !step.result.success
    case PARALLEL => step.Returned?
    case _ => false
  }

  predicate MetBelow(lib: Library, fine: (string, Store) -> bool, kind: Kind, nodes: seq<Node>, w: World)
    decreases nodes, 0
  {
    nodes != [] && (kind == SEQUENCE || kind == SELECTOR || kind == PARALLEL) ==>
      && Met(lib, fine, nodes[0], w)
      && var step := ExecNode(lib, nodes[0], w);
         (GoesOn(kind, step) ==> MetBelow(lib, fine, kind, nodes[1..], step.world))
  }

  ghost predicate Sufficient(lib: Library, swap: (string, string) -> bool, fine: (string, Store) -> bool) {
    forall e, f, st | swap(e, f) && fine(e, st) ::
      C.Evaluated(lib, st, e).satisfied == C.Evaluated(lib, st, f).satisfied
  }

  /** Equal, or both stopped by the same node's precondition, whose message quotes its text. */
  predicate SameUpToReason(a: ExecutionResult, b: ExecutionResult) {
    a == b ||
    (!a.success && a.message.Blocked? && b.message.Blocked? && b == a.(message := b.message))
  }

  predicate SameStep(a: Step, b: Step) {
    a == b || (a.Returned? && b.Returned? && SameUpToReason(a.result, b.result) && a.world == b.world)
  }

  /** A run cannot tell the trees apart: same verdict, failing node, outputs, variables and
      mailbox, or the same exception. */
  lemma {:induction false} RewordedNodeRunsAlike(lib: Library, swap: (string, string) -> bool,
                                                 fine: (string, Store) -> bool, n: Node, d: Node, w: World)
    requires Sufficient(lib, swap, fine) && Reworded(swap, n, d) && Met(lib, fine, n, w)
    ensures SameStep(ExecNode(lib, n, w), ExecNode(lib, d, w))
    decreases n, 1
  {
    var w1 := Observing(n, w);
    if !IsCancelled(w) && Passes(lib, n, w1) {
      RewordedDispatch(lib, swap, fine, n, d, w1);
      SameFinish(n.name, n.params, Dispatch(lib, n, w1), Dispatch(lib, d, w1));
    }
  }

  lemma SameFinish(name: string, params: map<string, string>, a: Step, b: Step)
    requires SameStep(a, b)
    ensures SameStep(Finished(name, params, a), Finished(name, params, b))
  {
  }

  lemma {:induction false} RewordedDispatch(lib: Library, swap: (string, string) -> bool, fine: (string, Store) -> bool,
                                            n: Node, d: Node, w: World)
    requires Sufficient(lib, swap, fine) && Reworded(swap, n, d) && Passes(lib, n, w)
    requires (n.expression != "" ==> fine(n.expression, w.store)) && MetBelow(lib, fine, n.kind, n.children, w)
    ensures SameStep(Dispatch(lib, n, w), Dispatch(lib, d, w))
    decreases n, 0
  {
    match n.kind
    case SEQUENCE => RewordedSequence(lib, swap, fine, n.children, d.children, map[], w);
    case SELECTOR => RewordedSelector(lib, swap, fine, n.name, n.children, d.children, w);
    case PARALLEL => RewordedParallel(lib, swap, fine, n.children, d.children, None, map[], w);
    case _ =>
  }

  lemma {:induction false} RewordedSequence(lib: Library, swap: (string, string) -> bool, fine: (string, Store) -> bool,
                                            cs: seq<Node>, ds: seq<Node>, outputs: Bindings, w: World)
    requires Sufficient(lib, swap, fine) && RewordedAll(swap, cs, ds) && MetBelow(lib, fine, SEQUENCE, cs, w)
    ensures SameStep(ExecSequence(lib, cs, outputs, w), ExecSequence(lib, ds, outputs, w))
    decreases cs, 0
  {
    if cs != [] {
      RewordedNodeRunsAlike(lib, swap, fine, cs[0], ds[0], w);
      var step := ExecNode(lib, cs[0], w);
      if step.Succeeded() {
        RewordedSequence(lib, swap, fine, cs[1..], ds[1..], outputs + step.result.outputs, step.world);
      }
    }
  }

  lemma {:induction false} RewordedSelector(lib: Library, swap: (string, string) -> bool, fine: (string, Store) -> bool,
                                            name: string, cs: seq<Node>, ds: seq<Node>, w: World)
    requires Sufficient(lib, swap, fine) && RewordedAll(swap, cs, ds) && MetBelow(lib, fine, SELECTOR, cs, w)
    ensures SameStep(ExecSelector(lib, name, cs, w), ExecSelector(lib, name, ds, w))
    decreases cs, 0
  {
    if cs != [] {
      RewordedNodeRunsAlike(lib, swap, fine, cs[0], ds[0], w);
      var step := ExecNode(lib, cs[0], w);
      if GoesOn(SELECTOR, step) {
        RewordedSelector(lib, swap, fine, name, cs[1..], ds[1..], step.world);
      }
    }
  }

  lemma {:induction false} RewordedParallel(lib: Library, swap: (string, string) -> bool, fine: (string, Store) -> bool,
                                            cs: seq<Node>, ds: seq<Node>, failed: Option<string>, outputs: Bindings,
                                            w: World)
    requires Sufficient(lib, swap, fine) && RewordedAll(swap, cs, ds) && MetBelow(lib, fine, PARALLEL, cs, w)
    ensures SameStep(ExecParallel(lib, cs, failed, outputs, w), ExecParallel(lib, ds, failed, outputs, w))
    decreases cs, 0
  {
    if cs != [] {
      RewordedNodeRunsAlike(lib, swap, fine, cs[0], ds[0], w);
      var step := ExecNode(lib, cs[0], w);
      if step.Succeeded() {
        RewordedParallel(lib, swap, fine, cs[1..], ds[1..], failed, outputs + step.result.outputs, step.world);
      } else if step.Returned? {
        var name := if step.result.failedNode == "" then cs[0].name else step.result.failedNode;
        RewordedParallel(lib, swap, fine, cs[1..], ds[1..], if failed.Some? then failed else Some(name), outputs,
                         step.world);
      }
    }
  }

  // ----- tasks -----

  lemma {:induction false} RewordedDefaults(lib: Library, swap: (string, string) -> bool, n: Node, d: Node, st: Store)
    requires Reworded(swap, n, d)
    ensures Defaults(lib, n, st) == Defaults(lib, d, st)
    decreases n, 1
  {
    var own := StoreFromParams(lib, StoreFromParams(lib, st, n.inits, LOCAL), n.constants, LOCAL);
    RewordedDefaultsAll(lib, swap, n.children, d.children, own);
  }

  lemma {:induction false} RewordedDefaultsAll(lib: Library, swap: (string, string) -> bool, cs: seq<Node>,
                                               ds: seq<Node>, st: Store)
    requires RewordedAll(swap, cs, ds)
    ensures DefaultsAll(lib, cs, st) == DefaultsAll(lib, ds, st)
    decreases cs, 0
  {
    if cs != [] {
      RewordedDefaults(lib, swap, cs[0], ds[0], st);
      RewordedDefaultsAll(lib, swap, cs[1..], ds[1..], Defaults(lib, cs[0], st));
    }
  }

  /** The world in which a task runs its root. */
  function RootWorld(lib: Library, task: Task, n: Node, m: Machine): World {
    Polled(Prepared(lib, task, T.Instantiated(n, task.params), m).world)
  }

  lemma PreparedAlike(lib: Library, swap: (string, string) -> bool, task: Task, n: Node, d: Node, m: Machine)
    requires Reworded(swap, n, d)
    ensures Prepared(lib, task, n, m) == Prepared(lib, task, d, m)
  {
    RewordedDefaults(lib, swap, n, d, TaskContext(lib, task, m.world.store));
  }

  /** A task over reworded trees: same machine behind it, same result up to the text that the
      message of a failed precondition quotes. */
  lemma RewordedTaskRunsAlike(lib: Library, swap: (string, string) -> bool, fine: (string, Store) -> bool,
                              rollback: bool, task: Task, n: Node, d: Node, m: Machine)
    requires Sufficient(lib, swap, fine)
    requires Reworded(swap, T.Instantiated(n, task.params), T.Instantiated(d, task.params))
    requires Met(lib, fine, T.Instantiated(n, task.params), RootWorld(lib, task, n, m))
    ensures var a, b := ExecTask(lib, rollback, task, n, m), ExecTask(lib, rollback, task, d, m);
      SameUpToReason(a.result, b.result) && a.machine == b.machine
  {
    var root, other := T.Instantiated(n, task.params), T.Instantiated(d, task.params);
    PreparedAlike(lib, swap, task, root, other, m);
    RewordedNodeRunsAlike(lib, swap, fine, root, other, Polled(Prepared(lib, task, root, m).world));
  }

  // ----- the two rewritings -----

  /** `text` prints the condition with the fewest parentheses and any blanks. */
  ghost predicate Prints(text: string, c: Condition) {
    exists gaps ::
      Spelled(Minimal(c)) && Spaced(Words(Minimal(c)), gaps) && text == Render(Words(Minimal(c)), gaps)
  }

  ghost predicate NormalForm(e: string, f: string) {
    exists c :: Prints(e, c) && Prints(f, Nnf(c, false))
  }

  /** Every comparison that the normal form of this text turns round has an opposite here. */
  ghost predicate TurnableText(lib: Library, e: string, st: Store) {
    forall c | Prints(e, c) :: Turnable(lib, st, c, false)
  }

  ghost predicate RearrangedText(e: string, f: string) {
    exists c, d :: Prints(e, c) && Prints(f, d) && Rearranged(c, d)
  }

  /** Normal forms everywhere in a task, if all comparisons it turns round have an opposite in
      the stores where they are evaluated. */
  lemma NormalFormTaskRunsAlike(lib: Library, rollback: bool, task: Task, n: Node, d: Node, m: Machine)
    requires Reworded(NormalForm, T.Instantiated(n, task.params), T.Instantiated(d, task.params))
    requires Met(lib, (e, st) => TurnableText(lib, e, st), T.Instantiated(n, task.params), RootWorld(lib, task, n, m))
    ensures var a, b := ExecTask(lib, rollback, task, n, m), ExecTask(lib, rollback, task, d, m);
      SameUpToReason(a.result, b.result) && a.machine == b.machine
  {
    var fine := (e: string, st: Store) => TurnableText(lib, e, st);
    forall e, f, st | NormalForm(e, f) && fine(e, st)
      ensures C.Evaluated(lib, st, e).satisfied == C.Evaluated(lib, st, f).satisfied
    {
      NormalFormAgrees(lib, st, e, f);
    }
    RewordedTaskRunsAlike(lib, NormalForm, fine, rollback, task, n, d, m);
  }

  lemma NormalFormAgrees(lib: Library, st: Store, e: string, f: string)
    requires NormalForm(e, f) && TurnableText(lib, e, st)
    ensures C.Evaluated(lib, st, e).satisfied == C.Evaluated(lib, st, f).satisfied
  {
    var c :| Prints(e, c) && Prints(f, Nnf(c, false));
    PrintedNormalFormAgrees(lib, st, e, f, c);
  }

  lemma PrintedNormalFormAgrees(lib: Library, st: Store, e: string, f: string, c: Condition)
    requires Prints(e, c) && Prints(f, Nnf(c, false)) && Turnable(lib, st, c, false)
    ensures C.Evaluated(lib, st, e).satisfied == C.Evaluated(lib, st, f).satisfied
  {
    var gaps :| Spelled(Minimal(c)) && Spaced(Words(Minimal(c)), gaps) && e == Render(Words(Minimal(c)), gaps);
    var other :| Spaced(Words(Minimal(Nnf(c, false))), other) && f == Render(Words(Minimal(Nnf(c, false))), other);
    NnfEvaluates(lib, st, c, gaps, other);
  }

  lemma RearrangedAgrees(lib: Library, st: Store, e: string, f: string)
    requires RearrangedText(e, f)
    ensures C.Evaluated(lib, st, e).satisfied == C.Evaluated(lib, st, f).satisfied
  {
    var c, d :| Prints(e, c) && Prints(f, d) && Rearranged(c, d);
    var gaps :| Spelled(Minimal(c)) && Spaced(Words(Minimal(c)), gaps) && e == Render(Words(Minimal(c)), gaps);
    var other :| Spelled(Minimal(d)) && Spaced(Words(Minimal(d)), other) && f == Render(Words(Minimal(d)), other);
    RearrangedEvaluates(lib, st, c, d, gaps, other);
  }

  lemma {:induction false} AnyStoreMet(lib: Library, fine: (string, Store) -> bool, n: Node, w: World)
    requires forall e, st :: fine(e, st)
    ensures Met(lib, fine, n, w)
    decreases n, 1
  {
    AnyStoreMetBelow(lib, fine, n.kind, n.children, Observing(n, w));
  }

  lemma {:induction false} AnyStoreMetBelow(lib: Library, fine: (string, Store) -> bool, kind: Kind, nodes: seq<Node>,
                                            w: World)
    requires forall e, st :: fine(e, st)
    ensures MetBelow(lib, fine, kind, nodes, w)
    decreases nodes, 0
  {
    if nodes != [] {
      AnyStoreMet(lib, fine, nodes[0], w);
      AnyStoreMetBelow(lib, fine, kind, nodes[1..], ExecNode(lib, nodes[0], w).world);
    }
  }

  /** Exchanged operands of connectives anywhere in a task, from every machine. */
  lemma RearrangedTaskRunsAlike(lib: Library, rollback: bool, task: Task, n: Node, d: Node, m: Machine)
    requires Reworded(RearrangedText, T.Instantiated(n, task.params), T.Instantiated(d, task.params))
    ensures var a, b := ExecTask(lib, rollback, task, n, m), ExecTask(lib, rollback, task, d, m);
      SameUpToReason(a.result, b.result) && a.machine == b.machine
  {
    var fine := (e: string, st: Store) => true;
    forall e, f, st | RearrangedText(e, f) && fine(e, st)
      ensures C.Evaluated(lib, st, e).satisfied == C.Evaluated(lib, st, f).satisfied
    {
      RearrangedAgrees(lib, st, e, f);
    }
    AnyStoreMet(lib, fine, T.Instantiated(n, task.params), RootWorld(lib, task, n, m));
    RewordedTaskRunsAlike(lib, RearrangedText, fine, rollback, task, n, d, m);
  }
}
