/** The meaning of behaviour trees and tasks (src/executor/generic_executor.cpp) as functions
    on the executor's state. `GenericExecutor.dfy` holds the object that computes them. */
module Execution {
  import opened Wrappers
  import opened Text
  import opened Values
  import opened Variables
  import opened Behavior
  import opened ValueExpressions
  import C = Constraints
  import N = NumericExpression
  import T = Templates

  datatype Note =
    | NoNote
    | Tag(text: string)
    | Cancelled
    | Blocked(reason: C.Message)
    | MissingExpression
    | ConditionTrue
    | ConditionFalse
    | AllBranchesFailed
    | SomeChildrenFailed
    | SetvarWithoutName
    | SetvarMalformed(command: string)
    | UnsupportedCommand(command: string)
    | Exception(error: N.NumericError)

  datatype ExecutionResult = ExecutionResult(success: bool, message: Note, failedNode: string, outputs: Bindings)

  function Success(message: Note, outputs: Bindings): ExecutionResult {
    ExecutionResult(true, message, "", outputs)
  }

  function Failure(message: Note, node: string): ExecutionResult {
    ExecutionResult(false, message, node, map[])
  }

  /** What a running tree can see and change.
      `fuse` is the cancel flag, which other threads only ever raise: `None` if it stays down,
      `Some(n)` if it is up after n more looks at it.
      `feed` is the other executors' use of the shared mailbox: for each RECEIVE to come, the
      packet that was stored over the mailbox since the last access, if any. */
  datatype World = World(store: Store, mailbox: Bindings, fuse: Option<nat>, feed: seq<Option<Bindings>>)

  datatype Step =
    | Returned(result: ExecutionResult, world: World)
    | Thrown(error: N.NumericError, world: World)
  {
    predicate Succeeded() {
      Returned? && result.success
    }
  }

  predicate IsCancelled(w: World) {
    w.fuse == Some(0)
  }

  /** One look at the cancel flag. */
  function Polled(w: World): World {
    if w.fuse.Some? && w.fuse.value > 0 then w.(fuse := Some(w.fuse.value - 1)) else w
  }

  // ----- observations -----

  function ObservationAlias(sensor: string): string {
    if sensor == "POS_X" then "x"
    else if sensor == "POS_Y" then "y"
    else if sensor == "POS_Z" then "z"
    else if sensor == "TARGET_X" then "tx"
    else if sensor == "TARGET_Y" then "ty"
    else if sensor == "TARGET_Z" then "tz"
    else if sensor == "REC" then "rec_type"
    else if sensor == "REC_TRUE" then "rec_type_true"
    else ""
  }

  function DefaultObservation(sensor: string): Value {
    if Contains(sensor, "REC") || Contains(sensor, "TYPE") then Str("")
    else if Contains(sensor, "IS_") || Contains(sensor, "FLAG") || Contains(sensor, "LIGHT") then Bool(false)
    else Double(Finite(0.0))
  }

  /** The sensor itself, its alias, the variable's old value, or a default. */
  function Observed(st: Store, name: string, sensor: string): Value {
    var alias := ObservationAlias(sensor);
    if Exists(st, sensor) then Get(st, sensor).value
    else if alias != "" && Exists(st, alias) then Get(st, alias).value
    else if Exists(st, name) then Get(st, name).value
    else DefaultObservation(sensor)
  }

  function ObserveKeys(st: Store, observation: map<string, string>, keys: seq<string>): Store
    requires forall k | k in keys :: k in observation
    decreases |keys|
  {
    if keys == [] then st
    else
      var v := Observed(st, keys[0], observation[keys[0]]);
      ObserveKeys(Set(st, keys[0], v, LOCAL), observation, keys[1..])
  }

  function ObserveAll(st: Store, observation: map<string, string>): Store {
    ObserveKeys(st, observation, SortedKeys(observation.Keys))
  }

  // ----- commands -----

  /** Where a command that evaluates all its parameters puts the values. */
  datatype Sink = ToLocal | ToIntermediate | ToReport | ToPacket

  function Deliver(sink: Sink, st: Store, k: string, v: Value): Store {
    match sink
    case ToLocal => Set(st, k, v, LOCAL)
    case ToIntermediate => Set(st, k, v, INTERMEDIATE)
    case ToReport => Set(st, "reported_" + k, v, GLOBAL)
    case ToPacket => st
  }

  /** The loops of ASSIGN, EMIT_COMMAND, REPORT_TARGET and SEND, in key order: each expression
      sees what the previous ones stored. */
  function ParamLoop(lib: Library, sink: Sink, params: map<string, string>, keys: seq<string>, outputs: Bindings,
                     w: World): Step
    requires forall k | k in keys :: k in params
    decreases |keys|
  {
    if keys == [] then Returned(Success(NoNote, outputs), w)
    else
      var k := keys[0];
      match EvalValue(lib, w.store, params[k])
      case Err(e) => Thrown(e, w)
      case Ok(v) =>
        ParamLoop(lib, sink, params, keys[1..], outputs[k := v], w.(store := Deliver(sink, w.store, k, v)))
  }

  /** The parameters of MOVE_TO and the sensors they move, in the order of the table. */
  function Axes(): seq<(string, string)> {
    [("x", "POS_X"), ("y", "POS_Y"), ("z", "POS_Z")]
  }

  function MoveLoop(lib: Library, params: map<string, string>, axes: seq<(string, string)>, outputs: Bindings,
                    w: World): Step
    decreases |axes|
  {
    if axes == [] then Returned(Success(NoNote, outputs), w)
    else
      var (axis, sensor) := axes[0];
      if axis !in params then MoveLoop(lib, params, axes[1..], outputs, w)
      else
        match EvalValue(lib, w.store, params[axis])
        case Err(e) => Thrown(e, w)
        case Ok(v) =>
          var st := Set(Set(w.store, axis, v, LOCAL), sensor, v, GLOBAL);
          MoveLoop(lib, params, axes[1..], outputs[axis := v], w.(store := st))
  }

  /** The mailbox as this access finds it. */
  function MailboxNow(w: World): Bindings {
    if w.feed != [] && w.feed[0].Some? then w.feed[0].value else w.mailbox
  }

  function MailboxRead(w: World): World {
    w.(mailbox := MailboxNow(w), feed := if w.feed == [] then [] else w.feed[1..])
  }

  function ReceiveLoop(lib: Library, packet: Bindings, params: map<string, string>, keys: seq<string>,
                       outputs: Bindings, w: World): Step
    requires forall k | k in keys :: k in params
    decreases |keys|
  {
    if keys == [] then Returned(Success(NoNote, outputs), w)
    else if keys[0] == "result_to" then ReceiveLoop(lib, packet, params, keys[1..], outputs, w)
    else
      var k := keys[0];
      match if k in packet then Ok(packet[k]) else EvalValue(lib, w.store, params[k])
      case Err(e) => Thrown(e, w)
      case Ok(v) =>
        ReceiveLoop(lib, packet, params, keys[1..], outputs[k := v], w.(store := Set(w.store, k, v, LOCAL)))
  }

  function ReceiveFlag(packet: Bindings, params: map<string, string>, step: Step): Step {
    var target := if "result_to" in params then Trimmed(params["result_to"]) else "";
    if step.Thrown? || target == "" then step
    else
      var v := Bool(packet != map[]);
      Returned(step.result.(outputs := step.result.outputs[target := v]),
               step.world.(store := Set(step.world.store, target, v, LOCAL)))
  }

  function Posted(step: Step): Step {
    match step
    case Returned(result, w) => Returned(result, w.(mailbox := result.outputs))
    case Thrown(_, _) => step
  }

  /** The parts of a well-formed `SETVAR name = expression`: six characters, then a name. */
  function SetvarParts(command: string): Option<(string, string)> {
    var eq := IndexOf(command, '=');
    if eq == |command| || eq <= 6 then None
    else Some((Trimmed(command[6..eq]), Trimmed(command[eq + 1..])))
  }

  function Setvar(lib: Library, command: string, w: World): Step {
    match SetvarParts(command)
    case None => Returned(Failure(SetvarMalformed(command), ""), w)
    case Some((name, expression)) =>
      if name == "" then Returned(Failure(SetvarWithoutName, ""), w)
      else
        match EvalValue(lib, w.store, expression)
        case Err(e) => Thrown(e, w)
        case Ok(v) => Returned(Success(NoNote, map[name := v]), w.(store := Set(w.store, name, v, GLOBAL)))
  }

  function CommandName(command: string): string {
    ToUpper(Trimmed(command))
  }

  /** The command's text names this command: blanks around it and its case do not matter. */
  predicate Says(command: string, name: string) {
    ToUpper(Trimmed(command)) == name
  }

  function Flagged(w: World, name: string, scope: Scope): World {
    w.(store := Set(w.store, name, Bool(true), scope))
  }

  datatype Verb =
    | NoOp | Assign | MoveTo | Send | Receive | EmitCommand | NextTask | ReportTarget | Exit | SetVar | Other

  function VerbOf(name: string): Verb {
    if name == "NO_OP" then NoOp
    else if name == "ASSIGN" then Assign
    else if name == "MOVE_TO" then MoveTo
    else if name == "SEND" then Send
    else if name == "RECEIVE" then Receive
    else if name == "EMIT_COMMAND" then EmitCommand
    else if name == "NEXT_TASK" then NextTask
    else if name == "REPORT_TARGET" then ReportTarget
    else if name == "EXIT" then Exit
    else if Contains(name, "SETVAR") then SetVar
    else Other
  }

  function ExecVerb(lib: Library, verb: Verb, command: string, params: map<string, string>, w: World): Step {
    var keys := SortedKeys(params.Keys);
    match verb
    case NoOp => Returned(Success(Tag("NO_OP"), map[]), w)
    case Assign => ParamLoop(lib, ToLocal, params, keys, map[], w)
    case MoveTo => MoveLoop(lib, params, Axes(), map[], w)
    case Send => Posted(ParamLoop(lib, ToPacket, params, keys, map[], w))
    case Receive =>
      ReceiveFlag(MailboxNow(w), params, ReceiveLoop(lib, MailboxNow(w), params, keys, map[], MailboxRead(w)))
    case EmitCommand => ParamLoop(lib, ToIntermediate, params, keys, map[], w)
    case NextTask => Returned(Success(Tag("NEXT_TASK"), map[]), Flagged(w, "next_task", LOCAL))
    case ReportTarget => ParamLoop(lib, ToReport, params, keys, map[], Flagged(w, "target_reported", GLOBAL))
    case Exit => Returned(Success(Tag("EXIT"), map[]), Flagged(w, "mission_exit", GLOBAL))
    case SetVar => Setvar(lib, command, w)
    case Other => Returned(Failure(UnsupportedCommand(command), ""), w)
  }

  function ExecBuiltin(lib: Library, command: string, params: map<string, string>, w: World): Step {
    ExecVerb(lib, VerbOf(CommandName(command)), command, params, w)
  }

  function ExecCommand(lib: Library, command: string, params: map<string, string>, w: World): Step {
    if command == "" then Returned(Success(NoNote, map[]), w) else ExecBuiltin(lib, command, params, w)
  }

  // ----- nodes -----

  /** `appendNodeParamsToOutputs`, over the keys still to come. */
  function AppendParams(name: string, params: map<string, string>, keys: seq<string>, st: Store,
                        outputs: Bindings): Bindings
    requires forall k | k in keys :: k in params
    decreases |keys|
  {
    if keys == [] then outputs
    else
      var k := keys[0];
      var v := if k in outputs then outputs[k] else if Exists(st, k) then Get(st, k).value else Str(params[k]);
      AppendParams(name, params, keys[1..], st, outputs[name + "." + k := v])
  }

  /** The end of `executeNode`: outputs of a successful node are qualified with its name. */
  function Finished(name: string, params: map<string, string>, step: Step): Step {
    if step.Succeeded() && params != map[] then
      var outputs := AppendParams(name, params, SortedKeys(params.Keys), step.world.store, step.result.outputs);
      Returned(step.result.(outputs := outputs - params.Keys), step.world)
    else step
  }

  function ExecCondition(lib: Library, node: Node, w: World): Step {
    if node.expression == "" then Returned(Failure(MissingExpression, node.name), w)
    else if C.Evaluated(lib, w.store, node.expression).satisfied then Returned(Success(ConditionTrue, map[]), w)
    else Returned(Failure(ConditionFalse, node.name), w)
  }

  function ExecNode(lib: Library, node: Node, w: World): Step
    decreases node, 1
  {
    if IsCancelled(w) then Returned(Failure(Cancelled, node.name), w)
    else
      var w1 := Polled(w).(store := ObserveAll(w.store, node.observation));
      var check := C.Evaluated(lib, w1.store, node.expression);
      if node.expression != "" && !check.satisfied then Returned(Failure(Blocked(check.message), node.name), w1)
      else Finished(node.name, node.params, Dispatch(lib, node, w1))
  }

  function Dispatch(lib: Library, node: Node, w: World): Step
    decreases node, 0
  {
    match node.kind
    case CONDITION => ExecCondition(lib, node, w)
    case SEQUENCE => ExecSequence(lib, node.children, map[], w)
    case SELECTOR => ExecSelector(lib, node.name, node.children, w)
    case PARALLEL => ExecParallel(lib, node.children, None, map[], w)
    case _ => ExecCommand(lib, node.command, node.params, w)
  }

  function ExecSequence(lib: Library, nodes: seq<Node>, outputs: Bindings, w: World): Step
    decreases nodes, 0
  {
    if nodes == [] then Returned(Success(NoNote, outputs), w)
    else
      var step := ExecNode(lib, nodes[0], w);
      if !step.Succeeded() then step
      else ExecSequence(lib, nodes[1..], outputs + step.result.outputs, step.world)
  }

  function ExecSelector(lib: Library, name: string, nodes: seq<Node>, w: World): Step
    decreases nodes, 0
  {
    if nodes == [] then Returned(Failure(AllBranchesFailed, name), w)
    else
      var step := ExecNode(lib, nodes[0], w);
      if step.Thrown? || step.Succeeded() then step
      else ExecSelector(lib, name, nodes[1..], step.world)
  }

  /** Every child runs, in order; the first failure is remembered. */
  function ExecParallel(lib: Library, nodes: seq<Node>, failed: Option<string>, outputs: Bindings, w: World): Step
    decreases nodes, 0
  {
    if nodes == [] then
      Returned(if failed.Some? then Failure(SomeChildrenFailed, failed.value) else Success(NoNote, outputs), w)
    else
      var step := ExecNode(lib, nodes[0], w);
      if step.Thrown? then step
      else if step.Succeeded() then ExecParallel(lib, nodes[1..], failed, outputs + step.result.outputs, step.world)
      else
        var name := if step.result.failedNode == "" then nodes[0].name else step.result.failedNode;
        ExecParallel(lib, nodes[1..], if failed.Some? then failed else Some(name), outputs, step.world)
  }

  // ----- tasks -----

  function Cleared(st: Store): Store {
    st.(local := map[], intermediate := map[])
  }

  function ContextKeys(task: Task): Bindings {
    map["satellite_id" := Str(task.satelliteId), "task_id" := Str(task.taskId), "segment_id" := Str(task.segmentId)]
  }

  /** `initializeTaskContext`. */
  function TaskContext(lib: Library, task: Task, st: Store): Store {
    StoreFromParams(lib, Store(st.global + ContextKeys(task), map[], map[]), task.params, LOCAL)
  }

  /** `initializeBehaviorDefaults`: preorder, and at each node initial values before constants. */
  function Defaults(lib: Library, node: Node, st: Store): Store {
    DefaultsAll(lib, node.children, StoreFromParams(lib, StoreFromParams(lib, st, node.inits, LOCAL), node.constants,
                                                    LOCAL))
  }

  function DefaultsAll(lib: Library, nodes: seq<Node>, st: Store): Store {
    if nodes == [] then st else DefaultsAll(lib, nodes[1..], Defaults(lib, nodes[0], st))
  }

  /** The store in which the root node starts. */
  function InitialStore(lib: Library, task: Task, root: Node, st: Store): Store {
    StoreFromParams(lib, Defaults(lib, root, TaskContext(lib, task, st)), task.params, LOCAL)
  }

  datatype Machine = Machine(world: World, snapshots: map<string, Store>, counter: Counter)

  function MemoryOf(m: Machine): Memory {
    Memory(m.world.store, m.snapshots, m.counter)
  }

  function WithMemory(m: Machine, memory: Memory): Machine {
    Machine(m.world.(store := memory.store), memory.snapshots, memory.counter)
  }

  datatype TaskOutcome = TaskOutcome(result: ExecutionResult, machine: Machine)

  /** `executeTaskInternal` up to the run of the root: context, snapshot, defaults. */
  function Prepared(lib: Library, task: Task, root: Node, m: Machine): Machine {
    var context := m.(world := m.world.(store := TaskContext(lib, task, m.world.store)));
    var taken := WithMemory(context, CreateSnapshot(MemoryOf(context)));
    taken.(world := taken.world.(store := InitialStore(lib, task, root, m.world.store)))
  }

  function RunRoot(lib: Library, root: Node, w: World): Step {
    if IsCancelled(w) then Returned(Failure(Cancelled, root.name), w) else ExecNode(lib, root, Polled(w))
  }

  /** Roll back after an exception always, after a failure of the root when configured; a task
      cancelled before its root ran is not rolled back, and has nothing to roll back. */
  function RollsBack(rollback: bool, cancelledEarly: bool, step: Step): bool {
    step.Thrown? || (rollback && !cancelledEarly && !step.result.success)
  }

  /** The machine behind the root's run, rolled back to the latest snapshot if need be. */
  function Settled(rollback: bool, cancelledEarly: bool, step: Step, ran: Machine): Machine {
    if RollsBack(rollback, cancelledEarly, step) then
      WithMemory(ran, RestoreSnapshot(MemoryOf(ran), SnapshotId(ran.counter)))
    else ran
  }

  function TaskResult(step: Step): ExecutionResult {
    match step
    case Thrown(e, _) => Failure(Exception(e), "")
    case Returned(result, _) => if result.success then Success(NoNote, result.outputs) else result
  }

  function ExecTask(lib: Library, rollback: bool, task: Task, behavior: Node, m: Machine): TaskOutcome {
    var root := T.Instantiated(behavior, task.params);
    var ready := Prepared(lib, task, root, m);
    var step := RunRoot(lib, root, ready.world);
    var ended := Settled(rollback, IsCancelled(ready.world), step, ready.(world := step.world));
    TaskOutcome(TaskResult(step), ended.(world := ended.world.(store := Cleared(ended.world.store))))
  }
}
