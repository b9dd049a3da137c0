/** What holds over every run of a task: failed tasks are atomic, global writes stay inside a
    fixed frame, and the initial store agrees with the template. */
module TaskProperties {
  import opened Wrappers
  import opened Text
  import opened Values
  import opened Variables
  import opened Behavior
  import opened ValueExpressions
  import opened Execution
  import T = Templates

  // ----- atomicity -----

  lemma {:induction false} DefaultsKeepScopes(lib: Library, node: Node, st: Store)
    ensures var d := Defaults(lib, node, st);
      d.global == st.global && d.intermediate == st.intermediate
  {
    var own := StoreFromParams(lib, StoreFromParams(lib, st, node.inits, LOCAL), node.constants, LOCAL);
    DefaultsAllKeepScopes(lib, node.children, own);
  }

  lemma {:induction false} DefaultsAllKeepScopes(lib: Library, nodes: seq<Node>, st: Store)
    ensures var d := DefaultsAll(lib, nodes, st);
      d.global == st.global && d.intermediate == st.intermediate
  {
    if nodes != [] {
      DefaultsKeepScopes(lib, nodes[0], st);
      DefaultsAllKeepScopes(lib, nodes[1..], Defaults(lib, nodes[0], st));
    }
  }

  /** With rollback, a task that fails for any reason, a blocked precondition, a failing
      command, an exception at any depth or a cancellation at any moment, leaves GLOBAL as it
      was except for the three context keys, and both task scopes empty. */
  lemma FailedTaskIsAtomic(lib: Library, task: Task, behavior: Node, m: Machine)
    requires !ExecTask(lib, true, task, behavior, m).result.success
    ensures ExecTask(lib, true, task, behavior, m).machine.world.store ==
            Store(m.world.store.global + ContextKeys(task), map[], map[])
  {
    var root := T.Instantiated(behavior, task.params);
    DefaultsKeepScopes(lib, root, TaskContext(lib, task, m.world.store));
  }

  /** The store every task leaves, and its verdict: GLOBAL is what the tree made of it after a
      success, and after a failure without rollback; otherwise, after an exception always, it is
      as it was except for the three context keys. The mailbox is never rolled back. */
  lemma FinalStore(lib: Library, rollback: bool, task: Task, behavior: Node, m: Machine)
    ensures var root := T.Instantiated(behavior, task.params);
      var step := RunRoot(lib, root, Prepared(lib, task, root, m).world);
      var out := ExecTask(lib, rollback, task, behavior, m);
      var kept := step.Returned? && (step.result.success || !rollback);
      && out.machine.world.store ==
         Store(if kept then step.world.store.global else m.world.store.global + ContextKeys(task), map[], map[])
      && out.machine.world.mailbox == step.world.mailbox
      && (out.result.success <==> step.Succeeded())
  {
    var root := T.Instantiated(behavior, task.params);
    DefaultsKeepScopes(lib, root, TaskContext(lib, task, m.world.store));
  }

  /** The scopes in which the root starts: GLOBAL with the task's three ids, INTERMEDIATE empty. */
  lemma InitialScopes(lib: Library, task: Task, behavior: Node, m: Machine)
    ensures var ready := Prepared(lib, task, T.Instantiated(behavior, task.params), m);
      && ready.world.store.global ==
         m.world.store.global["satellite_id" := Str(task.satelliteId)]["task_id" := Str(task.taskId)]
                             ["segment_id" := Str(task.segmentId)]
      && ready.world.store.intermediate == map[]
      && ready.world.mailbox == m.world.mailbox && ready.world.feed == m.world.feed
      && ready.world.fuse == m.world.fuse
  {
    var root := T.Instantiated(behavior, task.params);
    DefaultsKeepScopes(lib, root, TaskContext(lib, task, m.world.store));
  }

  /** Every task takes one snapshot, of the store with its context, and leaves all others. */
  lemma OneSnapshot(lib: Library, rollback: bool, task: Task, behavior: Node, m: Machine)
    ensures var out := ExecTask(lib, rollback, task, behavior, m).machine;
      && out.counter == (m.counter + 1) % 0x1_0000_0000
      && out.snapshots == m.snapshots["snapshot_" + NatToString(out.counter) := TaskContext(lib, task, m.world.store)]
  {
  }

  lemma ResultOfRoot(lib: Library, rollback: bool, task: Task, behavior: Node, m: Machine)
    ensures var root := T.Instantiated(behavior, task.params);
      ExecTask(lib, rollback, task, behavior, m).result ==
      TaskResult(RunRoot(lib, root, Prepared(lib, task, root, m).world))
  {
  }

  /** What becomes of a root's run. One that is cancelled before it fails under the root's name; otherwise
      the root is run, one look at the cancel flag later: its outputs are the task's after a success, its
      failure is the task's, and an exception becomes a failure without a node. */
  ghost predicate IsResult(lib: Library, root: Node, w: World, result: ExecutionResult) {
    if w.fuse == Some(0) then result == ExecutionResult(false, Cancelled, root.name, map[])
    else
      match ExecNode(lib, root, w.(fuse := if w.fuse.Some? then Some(w.fuse.value - 1) else None))
      case Thrown(e, _) => result == ExecutionResult(false, Exception(e), "", map[])
      case Returned(r, _) => result == if r.success then ExecutionResult(true, NoNote, "", r.outputs) else r
  }

  lemma RootResult(lib: Library, root: Node, w: World)
    ensures IsResult(lib, root, w, TaskResult(RunRoot(lib, root, w)))
  {
  }

  /** The result of every task is what becomes of its root's run. */
  lemma ResultMeans(lib: Library, rollback: bool, task: Task, behavior: Node, m: Machine)
    ensures var root := T.Instantiated(behavior, task.params);
      IsResult(lib, root, Prepared(lib, task, root, m).world, ExecTask(lib, rollback, task, behavior, m).result)
  {
    var root := T.Instantiated(behavior, task.params);
    ResultOfRoot(lib, rollback, task, behavior, m);
    RootResult(lib, root, Prepared(lib, task, root, m).world);
  }

  // ----- the frame of global writes -----

  /** The variables a tree assigns with SETVAR. */
  function SetvarTargets(node: Node): set<string> {
    SetvarTargetsAll(node.children) +
    (if VerbOf(CommandName(node.command)) == SetVar && SetvarParts(node.command).Some?
     then {SetvarParts(node.command).value.0} else {})
  }

  function SetvarTargetsAll(nodes: seq<Node>): set<string> {
    if nodes == [] then {} else SetvarTargets(nodes[0]) + SetvarTargetsAll(nodes[1..])
  }

  predicate InFrame(k: string) {
    k == "POS_X" || k == "POS_Y" || k == "POS_Z" || k == "target_reported" || k == "mission_exit" || "reported_" <= k
  }

  /** The part of GLOBAL that a tree whose SETVAR targets are among `targets` cannot reach. */
  function Outside(st: Store, targets: set<string>): Bindings {
    map k | k in st.global && !InFrame(k) && k !in targets :: st.global[k]
  }

  lemma SetOutside(st: Store, k: string, v: Value, scope: Scope, targets: set<string>)
    requires scope == GLOBAL ==> InFrame(k) || k in targets
    ensures Outside(Set(st, k, v, scope), targets) == Outside(st, targets)
  {
  }

  lemma {:induction false} ObserveOutside(st: Store, observation: map<string, string>, keys: seq<string>,
                                          targets: set<string>)
    requires forall k | k in keys :: k in observation
    ensures Outside(ObserveKeys(st, observation, keys), targets) == Outside(st, targets)
    decreases |keys|
  {
    if keys != [] {
      var v := Observed(st, keys[0], observation[keys[0]]);
      ObserveOutside(Set(st, keys[0], v, LOCAL), observation, keys[1..], targets);
    }
  }

  lemma {:induction false} ParamLoopOutside(lib: Library, sink: Sink, params: map<string, string>, keys: seq<string>,
                                            outputs: Bindings, w: World, targets: set<string>)
    requires forall k | k in keys :: k in params
    ensures Outside(ParamLoop(lib, sink, params, keys, outputs, w).world.store, targets) == Outside(w.store, targets)
    decreases |keys|
  {
    if keys != [] {
      var k, e := keys[0], EvalValue(lib, w.store, params[keys[0]]);
      if e.Ok? {
        SetOutside(w.store, "reported_" + k, e.value, GLOBAL, targets);
        var st := Deliver(sink, w.store, k, e.value);
        ParamLoopOutside(lib, sink, params, keys[1..], outputs[k := e.value], w.(store := st), targets);
      }
    }
  }

  lemma {:induction false} MoveLoopOutside(lib: Library, params: map<string, string>, axes: seq<(string, string)>,
                                           outputs: Bindings, w: World, targets: set<string>)
    requires forall a | a in axes :: InFrame(a.1)
    ensures Outside(MoveLoop(lib, params, axes, outputs, w).world.store, targets) == Outside(w.store, targets)
    decreases |axes|
  {
    if axes != [] {
      var (axis, sensor) := axes[0];
      assert axes[0] in axes;
      if axis !in params {
        MoveLoopOutside(lib, params, axes[1..], outputs, w, targets);
      } else {
        var e := EvalValue(lib, w.store, params[axis]);
        if e.Ok? {
          var st := Set(w.store, axis, e.value, LOCAL);
          SetOutside(st, sensor, e.value, GLOBAL, targets);
          MoveLoopOutside(lib, params, axes[1..], outputs[axis := e.value],
                          w.(store := Set(st, sensor, e.value, GLOBAL)), targets);
        }
      }
    }
  }

  lemma {:induction false} ReceiveLoopOutside(lib: Library, packet: Bindings, params: map<string, string>,
                                              keys: seq<string>, outputs: Bindings, w: World, targets: set<string>)
    requires forall k | k in keys :: k in params
    ensures Outside(ReceiveLoop(lib, packet, params, keys, outputs, w).world.store, targets) ==
        Outside(w.store, targets)
    decreases |keys|
  {
    if keys != [] {
      var k := keys[0];
      if k == "result_to" {
        ReceiveLoopOutside(lib, packet, params, keys[1..], outputs, w, targets);
      } else {
        var e := if k in packet then Ok(packet[k]) else EvalValue(lib, w.store, params[k]);
        if e.Ok? {
          ReceiveLoopOutside(lib, packet, params, keys[1..], outputs[k := e.value],
                             w.(store := Set(w.store, k, e.value, LOCAL)), targets);
        }
      }
    }
  }

  lemma SetvarOutside(lib: Library, command: string, w: World, targets: set<string>)
    requires SetvarParts(command).Some? ==> SetvarParts(command).value.0 in targets
    ensures Outside(Setvar(lib, command, w).world.store, targets) == Outside(w.store, targets)
  {
    var parts := SetvarParts(command);
    if parts.Some? && EvalValue(lib, w.store, parts.value.1).Ok? {
      SetOutside(w.store, parts.value.0, EvalValue(lib, w.store, parts.value.1).value, GLOBAL, targets);
    }
  }

  lemma VerbOutside(lib: Library, verb: Verb, command: string, params: map<string, string>, w: World,
                    targets: set<string>)
    requires verb == SetVar && SetvarParts(command).Some? ==> SetvarParts(command).value.0 in targets
    ensures Outside(ExecVerb(lib, verb, command, params, w).world.store, targets) == Outside(w.store, targets)
  {
    var keys := SortedKeys(params.Keys);
    match verb
    case Assign => ParamLoopOutside(lib, ToLocal, params, keys, map[], w, targets);
    case MoveTo => MoveLoopOutside(lib, params, Axes(), map[], w, targets);
    case Send => ParamLoopOutside(lib, ToPacket, params, keys, map[], w, targets);
    case Receive => ReceiveLoopOutside(lib, MailboxNow(w), params, keys, map[], MailboxRead(w), targets);
    case EmitCommand => ParamLoopOutside(lib, ToIntermediate, params, keys, map[], w, targets);
    case ReportTarget =>
      SetOutside(w.store, "target_reported", Bool(true), GLOBAL, targets);
      ParamLoopOutside(lib, ToReport, params, keys, map[], Flagged(w, "target_reported", GLOBAL), targets);
    case Exit => SetOutside(w.store, "mission_exit", Bool(true), GLOBAL, targets);
    case SetVar => SetvarOutside(lib, command, w, targets);
    case _ =>
  }

  lemma {:induction false} NodeOutside(lib: Library, node: Node, w: World, targets: set<string>)
    requires SetvarTargets(node) <= targets
    ensures Outside(ExecNode(lib, node, w).world.store, targets) == Outside(w.store, targets)
    decreases node, 1
  {
    if !IsCancelled(w) {
      ObserveOutside(w.store, node.observation, SortedKeys(node.observation.Keys), targets);
      DispatchOutside(lib, node, Polled(w).(store := ObserveAll(w.store, node.observation)), targets);
    }
  }

  lemma {:induction false} DispatchOutside(lib: Library, node: Node, w: World, targets: set<string>)
    requires SetvarTargets(node) <= targets
    ensures Outside(Dispatch(lib, node, w).world.store, targets) == Outside(w.store, targets)
    decreases node, 0
  {
    match node.kind
    case CONDITION =>
    case SEQUENCE => SequenceOutside(lib, node.children, map[], w, targets);
    case SELECTOR => SelectorOutside(lib, node.name, node.children, w, targets);
    case PARALLEL => ParallelOutside(lib, node.children, None, map[], w, targets);
    case _ => CommandOutside(lib, node.command, node.params, w, targets);
  }

  lemma CommandOutside(lib: Library, command: string, params: map<string, string>, w: World, targets: set<string>)
    requires VerbOf(CommandName(command)) == SetVar && SetvarParts(command).Some? ==>
      SetvarParts(command).value.0 in targets
    ensures Outside(ExecCommand(lib, command, params, w).world.store, targets) == Outside(w.store, targets)
  {
    VerbOutside(lib, VerbOf(CommandName(command)), command, params, w, targets);
  }

  lemma {:induction false} SequenceOutside(lib: Library, nodes: seq<Node>, outputs: Bindings, w: World,
                                           targets: set<string>)
    requires SetvarTargetsAll(nodes) <= targets
    ensures Outside(ExecSequence(lib, nodes, outputs, w).world.store, targets) == Outside(w.store, targets)
    decreases nodes, 0
  {
    if nodes != [] {
      NodeOutside(lib, nodes[0], w, targets);
      var step := ExecNode(lib, nodes[0], w);
      if step.Succeeded() {
        SequenceOutside(lib, nodes[1..], outputs + step.result.outputs, step.world, targets);
      }
    }
  }

  lemma {:induction false} SelectorOutside(lib: Library, name: string, nodes: seq<Node>, w: World, targets: set<string>)
    requires SetvarTargetsAll(nodes) <= targets
    ensures Outside(ExecSelector(lib, name, nodes, w).world.store, targets) == Outside(w.store, targets)
    decreases nodes, 0
  {
    if nodes != [] {
      NodeOutside(lib, nodes[0], w, targets);
      SelectorOutside(lib, name, nodes[1..], ExecNode(lib, nodes[0], w).world, targets);
    }
  }

  lemma {:induction false} ParallelOutside(lib: Library, nodes: seq<Node>, failed: Option<string>, outputs: Bindings,
                                           w: World, targets: set<string>)
    requires SetvarTargetsAll(nodes) <= targets
    ensures Outside(ExecParallel(lib, nodes, failed, outputs, w).world.store, targets) == Outside(w.store, targets)
    decreases nodes, 0
  {
    if nodes != [] {
      NodeOutside(lib, nodes[0], w, targets);
      var step := ExecNode(lib, nodes[0], w);
      if step.Succeeded() {
        ParallelOutside(lib, nodes[1..], failed, outputs + step.result.outputs, step.world, targets);
      } else if step.Returned? {
        var name := if step.result.failedNode == "" then nodes[0].name else step.result.failedNode;
        ParallelOutside(lib, nodes[1..], if failed.Some? then failed else Some(name), outputs, step.world, targets);
      }
    }
  }

  /** A whole task, successful or not, rolled back or not, changes GLOBAL only at the context
      keys, the position sensors, the two mission flags, the reports, and what the commands of
      its expanded tree name in a SETVAR. */
  lemma TaskWritesInsideFrame(lib: Library, rollback: bool, task: Task, behavior: Node, m: Machine, k: string)
    requires !InFrame(k) && k !in ContextKeys(task)
    requires k !in SetvarTargets(T.Instantiated(behavior, task.params))
    ensures var before, after := m.world.store.global, ExecTask(lib, rollback, task, behavior,
                                                                m).machine.world.store.global;
      (k in after <==> k in before) && (k in before ==> after[k] == before[k])
  {
    var root := T.Instantiated(behavior, task.params);
    var ready := Prepared(lib, task, root, m).world;
    FinalStore(lib, rollback, task, behavior, m);
    DefaultsKeepScopes(lib, root, TaskContext(lib, task, m.world.store));
    assert ready.store.global == m.world.store.global + ContextKeys(task);
    RootOutside(lib, root, ready, k);
  }

  lemma RootOutside(lib: Library, root: Node, w: World, k: string)
    requires !InFrame(k) && k !in SetvarTargets(root)
    ensures var before, after := w.store.global, RunRoot(lib, root, w).world.store.global;
      (k in after <==> k in before) && (k in before ==> after[k] == before[k])
  {
    var targets, after := SetvarTargets(root), RunRoot(lib, root, w).world.store;
    NodeOutside(lib, root, Polled(w), targets);
    assert Outside(after, targets) == Outside(w.store, targets);
    assert k in Outside(after, targets) <==> k in Outside(w.store, targets);
  }

  // ----- the initial store and the template -----

  /** The text `k` was declared with last, in the order of `initializeBehaviorDefaults`. */
  function LastDeclared(node: Node, k: string): Option<string> {
    var below := LastDeclaredAll(node.children, k);
    if below.Some? then below
    else if k in node.constants then Some(node.constants[k])
    else if k in node.inits then Some(node.inits[k])
    else None
  }

  function LastDeclaredAll(nodes: seq<Node>, k: string): Option<string> {
    if nodes == [] then None
    else
      var later := LastDeclaredAll(nodes[1..], k);
      if later.Some? then later else LastDeclared(nodes[0], k)
  }

  /** `local` binds `k` to the converted declaration, or else as `before` did. */
  ghost predicate Declares(lib: Library, declared: Option<string>, k: string, before: Bindings, local: Bindings) {
    match declared
    case Some(text) => k in local && local[k] == ConvertParam(lib, text)
    case None => (k in local <==> k in before) && (k in before ==> local[k] == before[k])
  }

  lemma {:induction false} DefaultsDeclare(lib: Library, node: Node, st: Store, k: string)
    ensures Declares(lib, LastDeclared(node, k), k, st.local, Defaults(lib, node, st).local)
  {
    var own := StoreFromParams(lib, StoreFromParams(lib, st, node.inits, LOCAL), node.constants, LOCAL);
    DefaultsAllDeclare(lib, node.children, own, k);
  }

  lemma {:induction false} DefaultsAllDeclare(lib: Library, nodes: seq<Node>, st: Store, k: string)
    ensures Declares(lib, LastDeclaredAll(nodes, k), k, st.local, DefaultsAll(lib, nodes, st).local)
  {
    if nodes != [] {
      DefaultsDeclare(lib, nodes[0], st, k);
      DefaultsAllDeclare(lib, nodes[1..], Defaults(lib, nodes[0], st), k);
    }
  }

  lemma {:induction false} ExpandKeepsDeclarations(node: Node, params: T.Params, k: string)
    ensures LastDeclared(T.Expand(node, params), k) == LastDeclared(node, k)
  {
    ExpandAllKeepsDeclarations(node.children, params, k);
  }

  lemma {:induction false} ExpandAllKeepsDeclarations(nodes: seq<Node>, params: T.Params, k: string)
    ensures LastDeclaredAll(T.ExpandAll(nodes, params), k) == LastDeclaredAll(nodes, k)
  {
    if nodes != [] {
      ExpandKeepsDeclarations(nodes[0], params, k);
      ExpandAllKeepsDeclarations(nodes[1..], params, k);
      assert T.ExpandAll(nodes, params)[1..] == T.ExpandAll(nodes[1..], params);
    }
  }

  /** LOCAL at the root, for any tree: a task parameter wins, then the last declaration. */
  lemma InitialLocal(lib: Library, task: Task, behavior: Node, st: Store, k: string)
    ensures var local := InitialStore(lib, task, T.Instantiated(behavior, task.params), st).local;
      var text := if k in task.params then Some(task.params[k]) else LastDeclared(behavior, k);
      (k in local <==> text.Some?) && (text.Some? ==> local[k] == ConvertParam(lib, text.value))
  {
    var root := T.Instantiated(behavior, task.params);
    ExpandKeepsDeclarations(behavior, T.TemplateParams(behavior, task.params), k);
    DefaultsDeclare(lib, root, TaskContext(lib, task, st), k);
  }

  /** The store agrees with the template: what `${k}` was replaced by is, converted, what
      LOCAL holds for `k` when the root runs, unless a descendant declares `k` again with a
      text that converts differently. Task parameters are never shadowed. */
  lemma InitialStoreAgreesWithTemplate(lib: Library, task: Task, behavior: Node, st: Store, k: string)
    requires k in T.TemplateParams(behavior, task.params)
    ensures var local := InitialStore(lib, task, T.Instantiated(behavior, task.params), st).local;
      var substituted := T.TemplateParams(behavior, task.params)[k];
      var redeclared := LastDeclaredAll(behavior.children, k);
      && k in local
      && (local[k] == ConvertParam(lib, substituted) <==>
          k in task.params || redeclared.None? || ConvertParam(lib, redeclared.value) == ConvertParam(lib, substituted))
  {
    InitialLocal(lib, task, behavior, st, k);
  }
}
