/** `GenericExecutor` (src/executor/generic_executor.cpp): the object that runs behaviour
    trees over its variable manager and the shared mailbox, proved equal, method by method,
    to the functions of module Execution. */
module GenericExecutor {
  import opened Wrappers
  import opened Text
  import opened Values
  import opened Variables
  import opened Behavior
  import opened ValueExpressions
  import opened Execution
  import T = Templates
  import C = Constraints
  import N = NumericExpression

  /** An `ExecutionResult`, or the exception that unwinds to `executeTaskInternal`. */
  type Reply = Result<ExecutionResult, N.NumericError>

  class Executor {
    const lib: Library
    const rollback: bool
    const vars: VariableManager
    const evaluator: C.ConstraintEvaluator
    var mailbox: Bindings
    var fuse: Option<nat>
    var feed: seq<Option<Bindings>>

    constructor (lib: Library, rollback: bool, fuse: Option<nat>, mailbox: Bindings, feed: seq<Option<Bindings>>)
      ensures Valid() && fresh(vars) && this.lib == lib && this.rollback == rollback
      ensures Now() == World(Store(map[], map[], map[]), mailbox, fuse, feed)
    {
      var manager := new VariableManager(lib);
      var constraints := new C.ConstraintEvaluator(lib, manager);
      this.lib, this.rollback, vars, evaluator := lib, rollback, manager, constraints;
      this.mailbox, this.fuse, this.feed := mailbox, fuse, feed;
    }

    ghost predicate Valid()
      reads this
    {
      vars.lib == lib && evaluator.lib == lib && evaluator.vars == vars
    }

    ghost function Now(): World
      reads this, vars
    {
      World(vars.Scopes(), mailbox, fuse, feed)
    }

    ghost function All(): Machine
      reads this, vars
    {
      Machine(Now(), vars.snapshots, vars.counter)
    }

    /** The call returned, or threw, what `step` says, and left the state `step` says. */
    ghost predicate Did(r: Reply, step: Step)
      reads this, vars
    {
      Now() == step.world &&
      match step
      case Returned(result, _) => r == Ok(result)
      case Thrown(e, _) => r == Err(e)
    }

    // ----- value expressions and observations -----

    method EvaluateValueExpression(expression: string) returns (r: Result<Value, N.NumericError>)
      requires Valid()
      ensures r == EvalValue(lib, vars.Scopes(), expression)
    {
      var t := Trim(expression);
      if t == "" {
        return Ok(Str(""));
      }
      if IsQuoted(t) {
        return Ok(Str(t[1..|t| - 1]));
      }
      if IsTrueWord(t) {
        return Ok(Bool(true));
      }
      if IsFalseWord(t) {
        return Ok(Bool(false));
      }
      if Exists(vars.Scopes(), t) {
        return Ok(Get(vars.Scopes(), t).value);
      }
      if HasComparison(t) {
        var satisfied := evaluator.Evaluate(t);
        return Ok(Bool(satisfied));
      }
      var literal := NumberLiteral(lib, t);
      if literal.Some? {
        return Ok(Literal(lib, t, literal.value));
      }
      if HasArithmetic(t) {
        var parser := new N.NumericExpressionParser(t, NumericContext(lib, vars.Scopes()));
        var value :- parser.Run();
        return Ok(Number(lib, value));
      }
      return Ok(Str(t));
    }

    method ApplyObservationValues(observation: map<string, string>)
      requires Valid()
      modifies vars`global, vars`local, vars`intermediate
      ensures vars.Scopes() == ObserveAll(old(vars.Scopes()), observation)
    {
      var keys := SortedKeys(observation.Keys);
      var i := 0;
      while i < |keys|
        invariant 0 <= i <= |keys|
        invariant ObserveKeys(vars.Scopes(), observation, keys[i..]) == ObserveAll(old(vars.Scopes()), observation)
      {
        var v := Observed(vars.Scopes(), keys[i], observation[keys[i]]);
        LeftBehind(keys, i);
        vars.SetVariable(keys[i], v, LOCAL);
        i := i + 1;
      }
    }

    method Poll() returns (cancelled: bool)
      requires Valid()
      modifies this`fuse
      ensures cancelled == IsCancelled(old(Now()))
      ensures Now() == Polled(old(Now()))
    {
      cancelled := fuse == Some(0);
      if fuse.Some? && fuse.value > 0 {
        fuse := Some(fuse.value - 1);
      }
    }

    // ----- commands -----

    /** What each of the four looping commands does with one evaluated parameter. */
    method DeliverValue(sink: Sink, k: string, v: Value)
      requires Valid()
      modifies vars`global, vars`local, vars`intermediate
      ensures vars.Scopes() == Deliver(sink, old(vars.Scopes()), k, v)
    {
      match sink
      case ToLocal => vars.SetVariable(k, v, LOCAL);
      case ToIntermediate => vars.SetVariable(k, v, INTERMEDIATE);
      case ToReport => vars.SetVariable("reported_" + k, v, GLOBAL);
      case ToPacket =>
    }

    method RunParam(sink: Sink, k: string, expression: string) returns (r: Result<Value, N.NumericError>)
      requires Valid()
      modifies vars`global, vars`local, vars`intermediate
      ensures r == EvalValue(lib, old(vars.Scopes()), expression)
      ensures vars.Scopes() == if r.Err? then old(vars.Scopes()) else Deliver(sink, old(vars.Scopes()), k, r.value)
    {
      var v :- EvaluateValueExpression(expression);
      DeliverValue(sink, k, v);
      r := Ok(v);
    }

    /** The parameter loop shared by ASSIGN, EMIT_COMMAND, REPORT_TARGET and SEND. */
    method RunParams(sink: Sink, params: map<string, string>) returns (r: Reply)
      requires Valid()
      modifies vars`global, vars`local, vars`intermediate
      ensures Did(r, ParamLoop(lib, sink, params, SortedKeys(params.Keys), map[], old(Now())))
    {
      var keys := SortedKeys(params.Keys);
      var outputs: Bindings := map[];
      var i := 0;
      while i < |keys|
        invariant 0 <= i <= |keys|
        invariant ParamLoop(lib, sink, params, keys[i..], outputs, Now()) ==
                  ParamLoop(lib, sink, params, keys, map[], old(Now()))
      {
        ParamLoopStep(lib, sink, params, keys, i, outputs, Now());
        var v :- RunParam(sink, keys[i], params[keys[i]]);
        outputs := outputs[keys[i] := v];
        i := i + 1;
      }
      r := Ok(Success(NoNote, outputs));
    }

    method MoveTo(params: map<string, string>) returns (r: Reply)
      requires Valid()
      modifies vars`global, vars`local, vars`intermediate
      ensures Did(r, MoveLoop(lib, params, Axes(), map[], old(Now())))
    {
      var axes := Axes();
      var outputs: Bindings := map[];
      var i := 0;
      while i < |axes|
        invariant 0 <= i <= |axes|
        invariant MoveLoop(lib, params, axes[i..], outputs, Now()) == MoveLoop(lib, params, axes, map[], old(Now()))
      {
        var (axis, sensor) := axes[i];
        LeftBehind(axes, i);
        i := i + 1;
        if axis in params {
          var v :- EvaluateValueExpression(params[axis]);
          vars.SetVariable(axis, v, LOCAL);
          vars.SetVariable(sensor, v, GLOBAL);
          outputs := outputs[axis := v];
        }
      }
      r := Ok(Success(NoNote, outputs));
    }

    /** One locked copy of the mailbox, as the other executors left it. */
    method ReadMailbox() returns (packet: Bindings)
      modifies this`mailbox, this`feed
      ensures packet == MailboxNow(old(Now())) && Now() == MailboxRead(old(Now()))
    {
      if feed != [] {
        if feed[0].Some? {
          mailbox := feed[0].value;
        }
        feed := feed[1..];
      }
      packet := mailbox;
    }

    method ReceiveParams(packet: Bindings, params: map<string, string>) returns (r: Reply)
      requires Valid()
      modifies vars`global, vars`local, vars`intermediate
      ensures Did(r, ReceiveLoop(lib, packet, params, SortedKeys(params.Keys), map[], old(Now())))
    {
      var keys := SortedKeys(params.Keys);
      var outputs: Bindings := map[];
      var i := 0;
      while i < |keys|
        invariant 0 <= i <= |keys|
        invariant ReceiveLoop(lib, packet, params, keys[i..], outputs, Now()) ==
                  ReceiveLoop(lib, packet, params, keys, map[], old(Now()))
      {
        var k := keys[i];
        LeftBehind(keys, i);
        i := i + 1;
        if k != "result_to" {
          var v;
          if k in packet {
            v := packet[k];
          } else {
            v :- EvaluateValueExpression(params[k]);
          }
          vars.SetVariable(k, v, LOCAL);
          outputs := outputs[k := v];
        }
      }
      r := Ok(Success(NoNote, outputs));
    }

    method Receive(params: map<string, string>) returns (r: Reply)
      requires Valid()
      modifies this`mailbox, this`feed, vars`global, vars`local, vars`intermediate
      ensures Did(r, ExecVerb(lib, Verb.Receive, "", params, old(Now())))
    {
      var packet := ReadMailbox();
      var target := "";
      if "result_to" in params {
        target := Trim(params["result_to"]);
      }
      var result :- ReceiveParams(packet, params);
      if target != "" {
        vars.SetVariable(target, Bool(packet != map[]), LOCAL);
        result := result.(outputs := result.outputs[target := Bool(packet != map[])]);
      }
      r := Ok(result);
    }

    method SetGlobal(command: string) returns (r: Reply)
      requires Valid()
      modifies vars`global, vars`local, vars`intermediate
      ensures Did(r, Setvar(lib, command, old(Now())))
    {
      var eq := IndexOf(command, '=');
      if eq == |command| || eq <= 6 {
        return Ok(Failure(SetvarMalformed(command), ""));
      }
      var name := Trim(command[6..eq]);
      var expression := Trim(command[eq + 1..]);
      assert SetvarParts(command) == Some((name, expression));
      if name == "" {
        return Ok(Failure(SetvarWithoutName, ""));
      }
      ghost var before := Now();
      var v :- EvaluateValueExpression(expression);
      vars.SetVariable(name, v, GLOBAL);
      assert Now() == before.(store := Set(before.store, name, v, GLOBAL));
      r := Ok(Success(NoNote, map[name := v]));
    }

    method ExecuteCommand(command: string, params: map<string, string>) returns (r: Reply)
      requires Valid()
      modifies this`mailbox, this`feed, vars`global, vars`local, vars`intermediate
      ensures Did(r, ExecCommand(lib, command, params, old(Now())))
    {
      if command == "" {
        return Ok(Success(NoNote, map[]));
      }
      r := ExecuteBuiltinCommand(command, params);
    }

    method ExecuteBuiltinCommand(command: string, params: map<string, string>) returns (r: Reply)
      requires Valid()
      modifies this`mailbox, this`feed, vars`global, vars`local, vars`intermediate
      ensures Did(r, ExecBuiltin(lib, command, params, old(Now())))
    {
      var trimmed := Trim(command);
      match VerbOf(ToUpper(trimmed)) {
        case NoOp => r := Ok(Success(Tag("NO_OP"), map[]));
        case Assign => r := RunParams(ToLocal, params);
        case MoveTo => r := MoveTo(params);
        case Send =>
          var packet :- RunParams(ToPacket, params);
          mailbox := packet.outputs;
          r := Ok(packet);
        case Receive => r := Receive(params);
        case EmitCommand => r := RunParams(ToIntermediate, params);
        case NextTask =>
          vars.SetVariable("next_task", Bool(true), LOCAL);
          r := Ok(Success(Tag("NEXT_TASK"), map[]));
        case ReportTarget =>
          vars.SetVariable("target_reported", Bool(true), GLOBAL);
          r := RunParams(ToReport, params);
        case Exit =>
          vars.SetVariable("mission_exit", Bool(true), GLOBAL);
          r := Ok(Success(Tag("EXIT"), map[]));
        case SetVar => r := SetGlobal(command);
        case Other => r := Ok(Failure(UnsupportedCommand(command), ""));
      }
    }

    // ----- nodes -----

    method AppendNodeParamsToOutputs(node: Node, outputs: Bindings) returns (r: Bindings)
      ensures r == AppendParams(node.name, node.params, SortedKeys(node.params.Keys), vars.Scopes(), outputs)
    {
      var keys := SortedKeys(node.params.Keys);
      r := outputs;
      var i := 0;
      while i < |keys|
        invariant 0 <= i <= |keys|
        invariant AppendParams(node.name, node.params, keys[i..], vars.Scopes(), r) ==
                  AppendParams(node.name, node.params, keys, vars.Scopes(), outputs)
      {
        var k := keys[i];
        LeftBehind(keys, i);
        var v;
        if k in r {
          v := r[k];
        } else if Exists(vars.Scopes(), k) {
          v := Get(vars.Scopes(), k).value;
        } else {
          v := Str(node.params[k]);
        }
        r := r[node.name + "." + k := v];
        i := i + 1;
      }
    }

    method ExecuteCondition(node: Node) returns (r: ExecutionResult)
      requires Valid()
      ensures Returned(r, Now()) == ExecCondition(lib, node, Now())
    {
      if node.expression == "" {
        return Failure(MissingExpression, node.name);
      }
      var satisfied := evaluator.Evaluate(node.expression);
      return if satisfied then Success(ConditionTrue, map[]) else Failure(ConditionFalse, node.name);
    }

    method ExecuteNode(node: Node) returns (r: Reply)
      requires Valid()
      modifies this`mailbox, this`fuse, this`feed, vars`global, vars`local, vars`intermediate
      ensures Did(r, ExecNode(lib, node, old(Now())))
      decreases node, 2
    {
      var cancelled := Poll();
      if cancelled {
        return Ok(Failure(Cancelled, node.name));
      }
      ApplyObservationValues(node.observation);
      if node.expression != "" {
        var check := evaluator.EvaluateDetailed(node.expression);
        if !check.satisfied {
          return Ok(Failure(Blocked(check.message), node.name));
        }
      }
      var result :- RunKind(node);
      if result.success && node.params != map[] {
        var outputs := AppendNodeParamsToOutputs(node, result.outputs);
        result := result.(outputs := outputs - node.params.Keys);
      }
      r := Ok(result);
    }

    /** The switch over the node type in `executeNode`. */
    method RunKind(node: Node) returns (r: Reply)
      requires Valid()
      modifies this`mailbox, this`fuse, this`feed, vars`global, vars`local, vars`intermediate
      ensures Did(r, Dispatch(lib, node, old(Now())))
      decreases node, 1
    {
      match node.kind {
        case CONDITION =>
          var result := ExecuteCondition(node);
          r := Ok(result);
        case SEQUENCE => r := ExecuteSequence(node.children);
        case SELECTOR => r := ExecuteSelector(node.name, node.children);
        case PARALLEL => r := ExecuteParallel(node.children);
        case _ => r := ExecuteCommand(node.command, node.params);
      }
    }

    method ExecuteSequence(nodes: seq<Node>) returns (r: Reply)
      requires Valid()
      modifies this`mailbox, this`fuse, this`feed, vars`global, vars`local, vars`intermediate
      ensures Did(r, ExecSequence(lib, nodes, map[], old(Now())))
      decreases nodes, 0
    {
      var outputs: Bindings := map[];
      var i := 0;
      while i < |nodes|
        invariant 0 <= i <= |nodes|
        invariant ExecSequence(lib, nodes[i..], outputs, Now()) == ExecSequence(lib, nodes, map[], old(Now()))
      {
        LeftBehind(nodes, i);
        var result :- ExecuteNode(nodes[i]);
        if !result.success {
          return Ok(result);
        }
        outputs := outputs + result.outputs;
        i := i + 1;
      }
      r := Ok(Success(NoNote, outputs));
    }

    method ExecuteSelector(name: string, nodes: seq<Node>) returns (r: Reply)
      requires Valid()
      modifies this`mailbox, this`fuse, this`feed, vars`global, vars`local, vars`intermediate
      ensures Did(r, ExecSelector(lib, name, nodes, old(Now())))
      decreases nodes, 0
    {
      var i := 0;
      while i < |nodes|
        invariant 0 <= i <= |nodes|
        invariant ExecSelector(lib, name, nodes[i..], Now()) == ExecSelector(lib, name, nodes, old(Now()))
      {
        LeftBehind(nodes, i);
        var result :- ExecuteNode(nodes[i]);
        if result.success {
          return Ok(result);
        }
        i := i + 1;
      }
      r := Ok(Failure(AllBranchesFailed, name));
    }

    method ExecuteParallel(nodes: seq<Node>) returns (r: Reply)
      requires Valid()
      modifies this`mailbox, this`fuse, this`feed, vars`global, vars`local, vars`intermediate
      ensures Did(r, ExecParallel(lib, nodes, None, map[], old(Now())))
      decreases nodes, 0
    {
      var outputs: Bindings := map[];
      var failed := None;
      var i := 0;
      while i < |nodes|
        invariant 0 <= i <= |nodes|
        invariant ExecParallel(lib, nodes[i..], failed, outputs, Now()) ==
                  ExecParallel(lib, nodes, None, map[], old(Now()))
      {
        LeftBehind(nodes, i);
        var result :- ExecuteNode(nodes[i]);
        if result.success {
          outputs := outputs + result.outputs;
        } else if failed.None? {
          failed := Some(if result.failedNode == "" then nodes[i].name else result.failedNode);
        }
        i := i + 1;
      }
      r := Ok(if failed.Some? then Failure(SomeChildrenFailed, failed.value) else Success(NoNote, outputs));
    }

    // ----- tasks -----

    method InitializeTaskContext(task: Task)
      requires Valid()
      modifies vars`global, vars`local, vars`intermediate
      ensures vars.Scopes() == TaskContext(lib, task, old(vars.Scopes()))
    {
      vars.Clear(LOCAL);
      vars.Clear(INTERMEDIATE);
      vars.SetVariable("satellite_id", Str(task.satelliteId), GLOBAL);
      vars.SetVariable("task_id", Str(task.taskId), GLOBAL);
      vars.SetVariable("segment_id", Str(task.segmentId), GLOBAL);
      ContextStored(old(vars.global), task);
      vars.SetFromParams(task.params, LOCAL);
    }

    method Declare(declared: map<string, string>)
      requires Valid()
      modifies vars`global, vars`local, vars`intermediate
      ensures vars.Scopes() == StoreFromParams(lib, old(vars.Scopes()), declared, LOCAL)
    {
      if declared != map[] {
        vars.SetFromParams(declared, LOCAL);
      } else {
        SettingNothing(lib, vars.Scopes());
      }
    }

    method InitializeBehaviorDefaults(node: Node)
      requires Valid()
      modifies vars`global, vars`local, vars`intermediate
      ensures vars.Scopes() == Defaults(lib, node, old(vars.Scopes()))
      decreases node, 1
    {
      Declare(node.inits);
      Declare(node.constants);
      InitializeChildren(node.children);
    }

    method InitializeChildren(nodes: seq<Node>)
      requires Valid()
      modifies vars`global, vars`local, vars`intermediate
      ensures vars.Scopes() == DefaultsAll(lib, nodes, old(vars.Scopes()))
      decreases nodes, 0
    {
      var i := 0;
      while i < |nodes|
        invariant 0 <= i <= |nodes|
        invariant DefaultsAll(lib, nodes[i..], vars.Scopes()) == DefaultsAll(lib, nodes, old(vars.Scopes()))
      {
        LeftBehind(nodes, i);
        InitializeBehaviorDefaults(nodes[i]);
        i := i + 1;
      }
    }

    /** The start of `executeTaskInternal`: context, snapshot, instantiation, defaults. */
    method PrepareTask(task: Task, behavior: Node) returns (root: Node, snapshot: string)
      requires Valid()
      modifies vars
      ensures root == T.Instantiated(behavior, task.params)
      ensures All() == Prepared(lib, task, root, old(All()))
      ensures snapshot == SnapshotId(vars.counter)
    {
      InitializeTaskContext(task);
      ghost var context := vars.Contents();
      snapshot := vars.TakeSnapshot();
      var nodes := T.Instantiate(behavior, task.params);
      root := nodes[0];
      InitializeBehaviorDefaults(root);
      vars.SetFromParams(task.params, LOCAL);
    }

    /** The loop over the single root node. */
    method RunRootNode(root: Node) returns (r: Reply)
      requires Valid()
      modifies this`mailbox, this`fuse, this`feed, vars`global, vars`local, vars`intermediate
      ensures Did(r, RunRoot(lib, root, old(Now())))
    {
      var cancelled := Poll();
      if cancelled {
        return Ok(Failure(Cancelled, root.name));
      }
      r := ExecuteNode(root);
    }

    /** The verdict of a task after its root ran, with the rollback. */
    method Settle(reply: Reply, cancelledEarly: bool, snapshot: string, ghost step: Step)
      returns (result: ExecutionResult)
      requires Valid() && Did(reply, step) && snapshot == SnapshotId(vars.counter)
      modifies vars`global, vars`local, vars`intermediate
      ensures result == TaskResult(step) && All() == Settled(rollback, cancelledEarly, step, old(All()))
    {
      match reply {
        case Ok(nodeResult) =>
          if nodeResult.success {
            result := Success(NoNote, nodeResult.outputs);
          } else {
            result := nodeResult;
            if rollback && !cancelledEarly {
              var _ := vars.RestoreSnapshot(snapshot);
            }
          }
        case Err(e) =>
          result := Failure(Exception(e), "");
          var _ := vars.RestoreSnapshot(snapshot);
      }
    }

    /** `executeTaskInternal`. */
    method ExecuteTask(task: Task, behavior: Node) returns (result: ExecutionResult)
      requires Valid()
      modifies this`mailbox, this`fuse, this`feed, vars
      ensures TaskOutcome(result, All()) == ExecTask(lib, rollback, task, behavior, old(All()))
    {
      var root, snapshot := PrepareTask(task, behavior);
      var cancelledEarly := fuse == Some(0);
      ghost var ready := Now();
      var reply := RunRootNode(root);
      result := Settle(reply, cancelledEarly, snapshot, RunRoot(lib, root, ready));
      vars.Clear(LOCAL);
      vars.Clear(INTERMEDIATE);
    }
  }

  lemma ParamLoopStep(lib: Library, sink: Sink, params: map<string, string>, keys: seq<string>, i: nat,
                      outputs: Bindings, w: World)
    requires i < |keys| && forall k | k in keys :: k in params
    ensures var e := EvalValue(lib, w.store, params[keys[i]]);
      ParamLoop(lib, sink, params, keys[i..], outputs, w) ==
      if e.Err? then Thrown(e.error, w)
      else ParamLoop(lib, sink, params, keys[i + 1..], outputs[keys[i] := e.value],
                     w.(store := Deliver(sink, w.store, keys[i], e.value)))
  {
    LeftBehind(keys, i);
  }

  lemma ContextStored(g: Bindings, task: Task)
    ensures g["satellite_id" := Str(task.satelliteId)]["task_id" := Str(task.taskId)]
             ["segment_id" := Str(task.segmentId)] == g + ContextKeys(task)
  {
  }

  lemma SettingNothing(lib: Library, st: Store)
    ensures StoreFromParams(lib, st, map[], LOCAL) == st
  {
    assert st.local + Converted(lib, map[]) == st.local;
  }
}
