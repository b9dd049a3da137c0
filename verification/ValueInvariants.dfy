/** What holds of every value in the store, the mailbox and the packets to come, and of what a
    tree's expressions make of such values, holds of every value throughout every run. */
module ValueInvariants {
  import opened Wrappers
  import opened Text
  import opened Values
  import opened Variables
  import opened Behavior
  import opened ValueExpressions
  import opened Execution
  import T = Templates

  type Property = Value -> bool

  predicate Holds(p: Property, b: Bindings) {
    forall k | k in b :: p(b[k])
  }

  predicate HoldsIn(p: Property, st: Store) {
    Holds(p, st.local) && Holds(p, st.intermediate) && Holds(p, st.global)
  }

  predicate HoldsAround(p: Property, w: World) {
    HoldsIn(p, w.store) && Holds(p, w.mailbox) && forall packet | packet in w.feed && packet.Some? ::
      Holds(p, packet.value)
  }

  predicate HoldsAfter(p: Property, step: Step) {
    HoldsAround(p, step.world) && (step.Returned? ==> Holds(p, step.result.outputs))
  }

  /** The values that execution makes up itself. */
  ghost predicate Basic(p: Property) {
    (forall s :: p(Str(s))) && (forall b :: p(Bool(b))) && p(Double(Finite(0.0)))
  }

  /** Over such values the expression has such a value, or none. */
  ghost predicate Keeps(lib: Library, p: Property, e: string) {
    forall st | HoldsIn(p, st) && EvalValue(lib, st, e).Ok? :: p(EvalValue(lib, st, e).value)
  }

  ghost predicate AllKeep(lib: Library, p: Property, params: map<string, string>) {
    forall k | k in params :: Keeps(lib, p, params[k])
  }

  ghost predicate CommandKeeps(lib: Library, p: Property, command: string, params: map<string, string>) {
    AllKeep(lib, p, params) && (SetvarParts(command).Some? ==> Keeps(lib, p, SetvarParts(command).value.1))
  }

  predicate IsControl(kind: Kind) {
    kind == CONDITION || kind == SEQUENCE || kind == SELECTOR || kind == PARALLEL
  }

  /** All value expressions of the tree's commands do. */
  ghost predicate KeptBy(lib: Library, p: Property, node: Node)
    decreases node, 1
  {
    && (IsControl(node.kind) || CommandKeeps(lib, p, node.command, node.params))
    && KeptBelow(lib, p, node.children)
  }

  ghost predicate KeptBelow(lib: Library, p: Property, nodes: seq<Node>)
    decreases nodes, 0
  {
    nodes == [] || (KeptBy(lib, p, nodes[0]) && KeptBelow(lib, p, nodes[1..]))
  }

  predicate Converts(lib: Library, p: Property, params: map<string, string>) {
    forall k | k in params :: p(ConvertParam(lib, params[k]))
  }

  /** All declarations of the tree are converted to such values. */
  predicate DeclaredBy(lib: Library, p: Property, node: Node)
    decreases node, 1
  {
    Converts(lib, p, node.inits) && Converts(lib, p, node.constants) && DeclaredBelow(lib, p, node.children)
  }

  predicate DeclaredBelow(lib: Library, p: Property, nodes: seq<Node>)
    decreases nodes, 0
  {
    nodes == [] || (DeclaredBy(lib, p, nodes[0]) && DeclaredBelow(lib, p, nodes[1..]))
  }

  lemma SetHolds(p: Property, st: Store, k: string, v: Value, scope: Scope)
    requires HoldsIn(p, st) && p(v)
    ensures HoldsIn(p, Set(st, k, v, scope))
  {
  }

  lemma ParamsHold(lib: Library, p: Property, st: Store, params: map<string, string>, scope: Scope)
    requires HoldsIn(p, st) && Converts(lib, p, params)
    ensures HoldsIn(p, StoreFromParams(lib, st, params, scope))
  {
  }

  lemma ValueKept(lib: Library, p: Property, st: Store, e: string)
    requires Keeps(lib, p, e) && HoldsIn(p, st)
    ensures EvalValue(lib, st, e).Ok? ==> p(EvalValue(lib, st, e).value)
  {
  }

  lemma ObservedHolds(p: Property, st: Store, name: string, sensor: string)
    requires Basic(p) && HoldsIn(p, st)
    ensures p(Observed(st, name, sensor))
  {
  }

  lemma {:induction false} ObserveHolds(p: Property, st: Store, observation: map<string, string>, keys: seq<string>)
    requires Basic(p) && HoldsIn(p, st) && forall k | k in keys :: k in observation
    ensures HoldsIn(p, ObserveKeys(st, observation, keys))
    decreases |keys|
  {
    if keys != [] {
      var v := Observed(st, keys[0], observation[keys[0]]);
      ObservedHolds(p, st, keys[0], observation[keys[0]]);
      SetHolds(p, st, keys[0], v, LOCAL);
      ObserveHolds(p, Set(st, keys[0], v, LOCAL), observation, keys[1..]);
    }
  }

  lemma {:induction false} ParamLoopHolds(lib: Library, p: Property, sink: Sink, params: map<string, string>,
                                          keys: seq<string>,
                                          outputs: Bindings, w: World)
    requires AllKeep(lib, p, params)
    requires HoldsAround(p, w) && Holds(p, outputs) && forall k | k in keys :: k in params
    ensures HoldsAfter(p, ParamLoop(lib, sink, params, keys, outputs, w))
    decreases |keys|
  {
    if keys != [] {
      var k, e := keys[0], EvalValue(lib, w.store, params[keys[0]]);
      ValueKept(lib, p, w.store, params[k]);
      if e.Ok? {
        SetHolds(p, w.store, k, e.value, LOCAL);
        SetHolds(p, w.store, k, e.value, INTERMEDIATE);
        SetHolds(p, w.store, "reported_" + k, e.value, GLOBAL);
        ParamLoopHolds(lib, p, sink, params, keys[1..], outputs[k := e.value],
                       w.(store := Deliver(sink, w.store, k, e.value)));
      }
    }
  }

  lemma {:induction false} MoveLoopHolds(lib: Library, p: Property, params: map<string, string>,
                                         axes: seq<(string, string)>,
                                         outputs: Bindings, w: World)
    requires AllKeep(lib, p, params) && HoldsAround(p, w) && Holds(p, outputs)
    ensures HoldsAfter(p, MoveLoop(lib, params, axes, outputs, w))
    decreases |axes|
  {
    if axes != [] {
      var (axis, sensor) := axes[0];
      if axis !in params {
        MoveLoopHolds(lib, p, params, axes[1..], outputs, w);
      } else {
        var e := EvalValue(lib, w.store, params[axis]);
        ValueKept(lib, p, w.store, params[axis]);
        if e.Ok? {
          SetHolds(p, w.store, axis, e.value, LOCAL);
          var st := Set(w.store, axis, e.value, LOCAL);
          SetHolds(p, st, sensor, e.value, GLOBAL);
          MoveLoopHolds(lib, p, params, axes[1..], outputs[axis := e.value],
                        w.(store := Set(st, sensor, e.value, GLOBAL)));
        }
      }
    }
  }

  lemma {:induction false} ReceiveLoopHolds(lib: Library, p: Property, packet: Bindings, params: map<string, string>,
                                            keys: seq<string>, outputs: Bindings, w: World)
    requires AllKeep(lib, p, params)
    requires HoldsAround(p, w) && Holds(p, outputs) && Holds(p, packet) && forall k | k in keys :: k in params
    ensures HoldsAfter(p, ReceiveLoop(lib, packet, params, keys, outputs, w))
    decreases |keys|
  {
    if keys != [] {
      var k := keys[0];
      if k == "result_to" {
        ReceiveLoopHolds(lib, p, packet, params, keys[1..], outputs, w);
      } else {
        ValueKept(lib, p, w.store, params[k]);
        var e := if k in packet then Ok(packet[k]) else EvalValue(lib, w.store, params[k]);
        if e.Ok? {
          SetHolds(p, w.store, k, e.value, LOCAL);
          ReceiveLoopHolds(lib, p, packet, params, keys[1..], outputs[k := e.value],
                           w.(store := Set(w.store, k, e.value, LOCAL)));
        }
      }
    }
  }

  lemma FlaggedHolds(p: Property, w: World, name: string, scope: Scope)
    requires Basic(p) && HoldsAround(p, w)
    ensures HoldsAround(p, Flagged(w, name, scope))
  {
    SetHolds(p, w.store, name, Bool(true), scope);
  }

  lemma MailboxHolds(p: Property, w: World)
    requires HoldsAround(p, w)
    ensures Holds(p, MailboxNow(w)) && HoldsAround(p, MailboxRead(w))
  {
  }

  lemma ReceiveFlagHolds(p: Property, packet: Bindings, params: map<string, string>, step: Step)
    requires Basic(p) && HoldsAfter(p, step)
    ensures HoldsAfter(p, ReceiveFlag(packet, params, step))
  {
    var target := if "result_to" in params then Trimmed(params["result_to"]) else "";
    SetHolds(p, step.world.store, target, Bool(packet != map[]), LOCAL);
  }

  lemma SetvarHolds(lib: Library, p: Property, command: string, w: World)
    requires HoldsAround(p, w) && (SetvarParts(command).Some? ==> Keeps(lib, p, SetvarParts(command).value.1))
    ensures HoldsAfter(p, Setvar(lib, command, w))
  {
    var parts := SetvarParts(command);
    if parts.Some? {
      var (name, expression) := parts.value;
      ValueKept(lib, p, w.store, expression);
      if EvalValue(lib, w.store, expression).Ok? {
        SetHolds(p, w.store, name, EvalValue(lib, w.store, expression).value, GLOBAL);
      }
    }
  }

  lemma VerbHolds(lib: Library, p: Property, verb: Verb, command: string, params: map<string, string>, w: World)
    requires Basic(p) && CommandKeeps(lib, p, command, params) && HoldsAround(p, w)
    ensures HoldsAfter(p, ExecVerb(lib, verb, command, params, w))
  {
    var keys := SortedKeys(params.Keys);
    match verb
    case Assign => ParamLoopHolds(lib, p, ToLocal, params, keys, map[], w);
    case MoveTo => MoveLoopHolds(lib, p, params, Axes(), map[], w);
    case Send => ParamLoopHolds(lib, p, ToPacket, params, keys, map[], w);
    case Receive =>
      MailboxHolds(p, w);
      ReceiveLoopHolds(lib, p, MailboxNow(w), params, keys, map[], MailboxRead(w));
      ReceiveFlagHolds(p, MailboxNow(w), params, ReceiveLoop(lib, MailboxNow(w), params, keys, map[], MailboxRead(w)));
    case EmitCommand => ParamLoopHolds(lib, p, ToIntermediate, params, keys, map[], w);
    case NextTask => FlaggedHolds(p, w, "next_task", LOCAL);
    case ReportTarget =>
      FlaggedHolds(p, w, "target_reported", GLOBAL);
      ParamLoopHolds(lib, p, ToReport, params, keys, map[], Flagged(w, "target_reported", GLOBAL));
    case Exit => FlaggedHolds(p, w, "mission_exit", GLOBAL);
    case SetVar => SetvarHolds(lib, p, command, w);
    case _ =>
  }

  lemma {:induction false} AppendHolds(p: Property, name: string, params: map<string, string>, keys: seq<string>,
                                       st: Store,
                                       outputs: Bindings)
    requires Basic(p) && HoldsIn(p, st) && Holds(p, outputs) && forall k | k in keys :: k in params
    ensures Holds(p, AppendParams(name, params, keys, st, outputs))
    decreases |keys|
  {
    if keys != [] {
      var k := keys[0];
      var v := if k in outputs then outputs[k] else if Exists(st, k) then Get(st, k).value else Str(params[k]);
      AppendHolds(p, name, params, keys[1..], st, outputs[name + "." + k := v]);
    }
  }

  lemma FinishedHolds(p: Property, name: string, params: map<string, string>, step: Step)
    requires Basic(p) && HoldsAfter(p, step)
    ensures HoldsAfter(p, Finished(name, params, step))
  {
    if step.Succeeded() {
      AppendHolds(p, name, params, SortedKeys(params.Keys), step.world.store, step.result.outputs);
    }
  }

  /** Every node keeps the property, in its outputs too. */
  lemma {:induction false} NodeKeeps(lib: Library, p: Property, node: Node, w: World)
    requires Basic(p) && KeptBy(lib, p, node) && HoldsAround(p, w)
    ensures HoldsAfter(p, ExecNode(lib, node, w))
    decreases node, 2
  {
    ObserveHolds(p, w.store, node.observation, SortedKeys(node.observation.Keys));
    var w1 := Polled(w).(store := ObserveAll(w.store, node.observation));
    DispatchHolds(lib, p, node, w1);
    FinishedHolds(p, node.name, node.params, Dispatch(lib, node, w1));
  }

  lemma {:induction false} DispatchHolds(lib: Library, p: Property, node: Node, w: World)
    requires Basic(p) && KeptBy(lib, p, node) && HoldsAround(p, w)
    ensures HoldsAfter(p, Dispatch(lib, node, w))
    decreases node, 1
  {
    match node.kind
    case CONDITION =>
    case SEQUENCE => SequenceHolds(lib, p, node.children, map[], w);
    case SELECTOR => SelectorHolds(lib, p, node.name, node.children, w);
    case PARALLEL => ParallelHolds(lib, p, node.children, None, map[], w);
    case _ => CommandHolds(lib, p, node.command, node.params, w);
  }

  lemma CommandHolds(lib: Library, p: Property, command: string, params: map<string, string>, w: World)
    requires Basic(p) && CommandKeeps(lib, p, command, params) && HoldsAround(p, w)
    ensures HoldsAfter(p, ExecCommand(lib, command, params, w))
  {
    VerbHolds(lib, p, VerbOf(CommandName(command)), command, params, w);
  }

  lemma {:induction false} SequenceHolds(lib: Library, p: Property, nodes: seq<Node>, outputs: Bindings, w: World)
    requires Basic(p) && KeptBelow(lib, p, nodes) && HoldsAround(p, w) && Holds(p, outputs)
    ensures HoldsAfter(p, ExecSequence(lib, nodes, outputs, w))
    decreases nodes, 0
  {
    if nodes != [] {
      NodeKeeps(lib, p, nodes[0], w);
      var step := ExecNode(lib, nodes[0], w);
      if step.Succeeded() {
        SequenceHolds(lib, p, nodes[1..], outputs + step.result.outputs, step.world);
      }
    }
  }

  lemma {:induction false} SelectorHolds(lib: Library, p: Property, name: string, nodes: seq<Node>, w: World)
    requires Basic(p) && KeptBelow(lib, p, nodes) && HoldsAround(p, w)
    ensures HoldsAfter(p, ExecSelector(lib, name, nodes, w))
    decreases nodes, 0
  {
    if nodes != [] {
      NodeKeeps(lib, p, nodes[0], w);
      SelectorHolds(lib, p, name, nodes[1..], ExecNode(lib, nodes[0], w).world);
    }
  }

  lemma {:induction false} ParallelHolds(lib: Library, p: Property, nodes: seq<Node>, failed: Option<string>,
                                         outputs: Bindings,
                                         w: World)
    requires Basic(p) && KeptBelow(lib, p, nodes) && HoldsAround(p, w) && Holds(p, outputs)
    ensures HoldsAfter(p, ExecParallel(lib, nodes, failed, outputs, w))
    decreases nodes, 0
  {
    if nodes != [] {
      NodeKeeps(lib, p, nodes[0], w);
      var step := ExecNode(lib, nodes[0], w);
      if step.Succeeded() {
        ParallelHolds(lib, p, nodes[1..], failed, outputs + step.result.outputs, step.world);
      } else if step.Returned? {
        var name := if step.result.failedNode == "" then nodes[0].name else step.result.failedNode;
        ParallelHolds(lib, p, nodes[1..], if failed.Some? then failed else Some(name), outputs, step.world);
      }
    }
  }

  lemma {:induction false} DefaultsHolds(lib: Library, p: Property, node: Node, st: Store)
    requires DeclaredBy(lib, p, node) && HoldsIn(p, st)
    ensures HoldsIn(p, Defaults(lib, node, st))
    decreases node, 1
  {
    ParamsHold(lib, p, st, node.inits, LOCAL);
    ParamsHold(lib, p, StoreFromParams(lib, st, node.inits, LOCAL), node.constants, LOCAL);
    DefaultsAllHolds(lib, p, node.children,
                     StoreFromParams(lib, StoreFromParams(lib, st, node.inits, LOCAL), node.constants, LOCAL));
  }

  lemma {:induction false} DefaultsAllHolds(lib: Library, p: Property, nodes: seq<Node>, st: Store)
    requires DeclaredBelow(lib, p, nodes) && HoldsIn(p, st)
    ensures HoldsIn(p, DefaultsAll(lib, nodes, st))
    decreases nodes, 0
  {
    if nodes != [] {
      DefaultsHolds(lib, p, nodes[0], st);
      DefaultsAllHolds(lib, p, nodes[1..], Defaults(lib, nodes[0], st));
    }
  }

  lemma InitialHolds(lib: Library, p: Property, task: Task, root: Node, st: Store)
    requires Basic(p) && DeclaredBy(lib, p, root) && Converts(lib, p, task.params) && HoldsIn(p, st)
    ensures HoldsIn(p, TaskContext(lib, task, st)) && HoldsIn(p, InitialStore(lib, task, root, st))
  {
    var context := Store(st.global + ContextKeys(task), map[], map[]);
    ParamsHold(lib, p, context, task.params, LOCAL);
    DefaultsHolds(lib, p, root, TaskContext(lib, task, st));
    ParamsHold(lib, p, Defaults(lib, root, TaskContext(lib, task, st)), task.params, LOCAL);
  }

  /** A task's expressions keep the property, and what it declares is converted to such values. */
  ghost predicate TaskIsKept(lib: Library, p: Property, task: Task, root: Node) {
    Basic(p) && KeptBy(lib, p, root) && DeclaredBy(lib, p, root) && Converts(lib, p, task.params)
  }

  /** Such a task keeps it: the root starts in such a store, and whatever the outcome, rolled back
      or not, the machine is left in one. */
  lemma TaskKeeps(lib: Library, p: Property, rollback: bool, task: Task, behavior: Node, m: Machine)
    requires TaskIsKept(lib, p, task, T.Instantiated(behavior, task.params)) && HoldsAround(p, m.world)
    ensures HoldsAround(p, Prepared(lib, task, T.Instantiated(behavior, task.params), m).world)
    ensures var out := ExecTask(lib, rollback, task, behavior, m);
      HoldsAround(p, out.machine.world) && Holds(p, out.result.outputs)
  {
    var root := T.Instantiated(behavior, task.params);
    var ready := Prepared(lib, task, root, m);
    InitialHolds(lib, p, task, root, m.world.store);
    NodeKeeps(lib, p, root, Polled(ready.world));
  }
}
