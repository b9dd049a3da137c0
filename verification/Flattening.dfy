/** Dissolving a Sequence inside a Sequence, or a Selector inside a Selector, anywhere in a
    tree, changes nothing that can be observed of a node, and of a task. */
module Flattening {
  import opened Wrappers
  import opened Text
  import opened Values
  import opened Variables
  import opened Behavior
  import opened ValueExpressions
  import opened Execution
  import T = Templates

  /** An inner node that only groups its children. `declared` says whether declarations matter:
      they do for a task, which walks the whole tree for them, not for running a node. */
  predicate Dissolvable(kind: Kind, c: Node, declared: bool) {
    && (kind == SEQUENCE || kind == SELECTOR) && c.kind == kind
    && c.expression == "" && c.observation == map[] && c.params == map[]
    && (declared ==> c.inits == map[] && c.constants == map[])
  }

  /** `d` is `n` with any number of dissolvable nodes dissolved, at any depth. */
  ghost predicate Flattened(n: Node, d: Node, declared: bool)
    decreases n, 1
  {
    d == n.(children := d.children) && FlattenedAll(n.kind, n.children, d.children, declared)
  }

  ghost predicate FlattenedAll(kind: Kind, cs: seq<Node>, ds: seq<Node>, declared: bool)
    decreases cs, 0
  {
    if cs == [] then ds == []
    else
      || (ds != [] && Flattened(cs[0], ds[0], declared) && FlattenedAll(kind, cs[1..], ds[1..], declared))
      || (Dissolvable(kind, cs[0], declared) &&
          exists k | 0 <= k <= |ds| ::
            FlattenedAll(kind, cs[0].children, ds[..k], declared) && FlattenedAll(kind, cs[1..], ds[k..], declared))
  }

  // ----- a flag that stays down stays down -----

  lemma {:induction false} ParamLoopFuse(lib: Library, sink: Sink, params: map<string, string>, keys: seq<string>,
                                         outputs: Bindings, w: World)
    requires forall k | k in keys :: k in params
    ensures ParamLoop(lib, sink, params, keys, outputs, w).world.fuse == w.fuse
    decreases |keys|
  {
    if keys != [] {
      var e := EvalValue(lib, w.store, params[keys[0]]);
      if e.Ok? {
        var st := Deliver(sink, w.store, keys[0], e.value);
        ParamLoopFuse(lib, sink, params, keys[1..], outputs[keys[0] := e.value], w.(store := st));
      }
    }
  }

  lemma {:induction false} MoveLoopFuse(lib: Library, params: map<string, string>, axes: seq<(string, string)>,
                                        outputs: Bindings, w: World)
    ensures MoveLoop(lib, params, axes, outputs, w).world.fuse == w.fuse
    decreases |axes|
  {
    if axes != [] {
      var (axis, sensor) := axes[0];
      if axis !in params {
        MoveLoopFuse(lib, params, axes[1..], outputs, w);
      } else {
        var e := EvalValue(lib, w.store, params[axis]);
        if e.Ok? {
          var st := Set(Set(w.store, axis, e.value, LOCAL), sensor, e.value, GLOBAL);
          MoveLoopFuse(lib, params, axes[1..], outputs[axis := e.value], w.(store := st));
        }
      }
    }
  }

  lemma {:induction false} ReceiveLoopFuse(lib: Library, packet: Bindings, params: map<string, string>,
                                           keys: seq<string>, outputs: Bindings, w: World)
    requires forall k | k in keys :: k in params
    ensures ReceiveLoop(lib, packet, params, keys, outputs, w).world.fuse == w.fuse
    decreases |keys|
  {
    if keys != [] {
      var k := keys[0];
      if k == "result_to" {
        ReceiveLoopFuse(lib, packet, params, keys[1..], outputs, w);
      } else {
        var e := if k in packet then Ok(packet[k]) else EvalValue(lib, w.store, params[k]);
        if e.Ok? {
          ReceiveLoopFuse(lib, packet, params, keys[1..], outputs[k := e.value],
                          w.(store := Set(w.store, k, e.value, LOCAL)));
        }
      }
    }
  }

  lemma VerbFuse(lib: Library, verb: Verb, command: string, params: map<string, string>, w: World)
    ensures ExecVerb(lib, verb, command, params, w).world.fuse == w.fuse
  {
    var keys := SortedKeys(params.Keys);
    match verb
    case Assign => ParamLoopFuse(lib, ToLocal, params, keys, map[], w);
    case MoveTo => MoveLoopFuse(lib, params, Axes(), map[], w);
    case Send => ParamLoopFuse(lib, ToPacket, params, keys, map[], w);
    case Receive => ReceiveLoopFuse(lib, MailboxNow(w), params, keys, map[], MailboxRead(w));
    case EmitCommand => ParamLoopFuse(lib, ToIntermediate, params, keys, map[], w);
    case ReportTarget => ParamLoopFuse(lib, ToReport, params, keys, map[], Flagged(w, "target_reported", GLOBAL));
    case _ =>
  }

  lemma {:induction false} NodeFuse(lib: Library, node: Node, w: World)
    requires w.fuse == None
    ensures ExecNode(lib, node, w).world.fuse == None
    decreases node, 1
  {
    DispatchFuse(lib, node, Polled(w).(store := ObserveAll(w.store, node.observation)));
  }

  lemma {:induction false} DispatchFuse(lib: Library, node: Node, w: World)
    requires w.fuse == None
    ensures Dispatch(lib, node, w).world.fuse == None
    decreases node, 0
  {
    match node.kind
    case CONDITION =>
    case SEQUENCE => SequenceFuse(lib, node.children, map[], w);
    case SELECTOR => SelectorFuse(lib, node.name, node.children, w);
    case PARALLEL => ParallelFuse(lib, node.children, None, map[], w);
    case _ => VerbFuse(lib, VerbOf(CommandName(node.command)), node.command, node.params, w);
  }

  lemma {:induction false} SequenceFuse(lib: Library, nodes: seq<Node>, outputs: Bindings, w: World)
    requires w.fuse == None
    ensures ExecSequence(lib, nodes, outputs, w).world.fuse == None
    decreases nodes, 0
  {
    if nodes != [] {
      NodeFuse(lib, nodes[0], w);
      var step := ExecNode(lib, nodes[0], w);
      if step.Succeeded() {
        SequenceFuse(lib, nodes[1..], outputs + step.result.outputs, step.world);
      }
    }
  }

  lemma {:induction false} SelectorFuse(lib: Library, name: string, nodes: seq<Node>, w: World)
    requires w.fuse == None
    ensures ExecSelector(lib, name, nodes, w).world.fuse == None
    decreases nodes, 0
  {
    if nodes != [] {
      NodeFuse(lib, nodes[0], w);
      SelectorFuse(lib, name, nodes[1..], ExecNode(lib, nodes[0], w).world);
    }
  }

  lemma {:induction false} ParallelFuse(lib: Library, nodes: seq<Node>, failed: Option<string>, outputs: Bindings,
                                        w: World)
    requires w.fuse == None
    ensures ExecParallel(lib, nodes, failed, outputs, w).world.fuse == None
    decreases nodes, 0
  {
    if nodes != [] {
      NodeFuse(lib, nodes[0], w);
      var step := ExecNode(lib, nodes[0], w);
      if step.Succeeded() {
        ParallelFuse(lib, nodes[1..], failed, outputs + step.result.outputs, step.world);
      } else if step.Returned? {
        var name := if step.result.failedNode == "" then nodes[0].name else step.result.failedNode;
        ParallelFuse(lib, nodes[1..], if failed.Some? then failed else Some(name), outputs, step.world);
      }
    }
  }

  // ----- running a concatenation -----

  /** A sequence resumed behind the outputs collected so far. */
  function After(step: Step, outputs: Bindings): Step {
    if step.Succeeded() then Returned(step.result.(outputs := outputs + step.result.outputs), step.world) else step
  }

  lemma MergeAssociates(a: Bindings, b: Bindings, c: Bindings)
    ensures a + b + c == a + (b + c)
  {
  }

  lemma {:induction false} SequenceOutputs(lib: Library, nodes: seq<Node>, outputs: Bindings, more: Bindings, w: World)
    ensures ExecSequence(lib, nodes, outputs + more, w) == After(ExecSequence(lib, nodes, more, w), outputs)
    decreases |nodes|
  {
    if nodes != [] {
      var step := ExecNode(lib, nodes[0], w);
      if step.Succeeded() {
        MergeAssociates(outputs, more, step.result.outputs);
        SequenceOutputs(lib, nodes[1..], outputs, more + step.result.outputs, step.world);
      }
    }
  }

  lemma {:induction false} SequenceConcat(lib: Library, a: seq<Node>, b: seq<Node>, outputs: Bindings, w: World)
    ensures var first := ExecSequence(lib, a, outputs, w);
      ExecSequence(lib, a + b, outputs, w) ==
      if first.Succeeded() then ExecSequence(lib, b, first.result.outputs, first.world) else first
    decreases |a|
  {
    if a == [] {
      assert a + b == b;
    } else {
      assert (a + b)[1..] == a[1..] + b;
      var step := ExecNode(lib, a[0], w);
      if step.Succeeded() {
        SequenceConcat(lib, a[1..], b, outputs + step.result.outputs, step.world);
      }
    }
  }

  /** A selector over `a + b` runs `a` under any name, and `b` if that fails. */
  lemma {:induction false} SelectorConcat(lib: Library, name: string, inner: string, a: seq<Node>, b: seq<Node>,
                                          w: World)
    ensures var first := ExecSelector(lib, inner, a, w);
      ExecSelector(lib, name, a + b, w) ==
      if first.Thrown? || first.Succeeded() then first else ExecSelector(lib, name, b, first.world)
    decreases |a|
  {
    if a == [] {
      assert a + b == b;
    } else {
      assert (a + b)[1..] == a[1..] + b;
      var step := ExecNode(lib, a[0], w);
      if step.Returned? && !step.Succeeded() {
        SelectorConcat(lib, name, inner, a[1..], b, step.world);
      }
    }
  }

  /** A dissolvable node does what its children do. */
  lemma DissolvableRuns(lib: Library, kind: Kind, c: Node, w: World, declared: bool)
    requires Dissolvable(kind, c, declared) && !IsCancelled(w)
    ensures kind == SEQUENCE ==> ExecNode(lib, c, w) == ExecSequence(lib, c.children, map[], Polled(w))
    ensures kind == SELECTOR ==> ExecNode(lib, c, w) == ExecSelector(lib, c.name, c.children, Polled(w))
  {
    assert c.observation.Keys == {};
    assert Polled(w).(store := ObserveAll(w.store, c.observation)) == Polled(w);
  }

  lemma DissolvedSequence(lib: Library, c: Node, a: seq<Node>, b: seq<Node>, outputs: Bindings, w: World,
                          declared: bool)
    requires Dissolvable(SEQUENCE, c, declared) && w.fuse == None
    requires ExecSequence(lib, c.children, map[], w) == ExecSequence(lib, a, map[], w)
    ensures var step := ExecNode(lib, c, w);
      ExecSequence(lib, a + b, outputs, w) ==
      if step.Succeeded() then ExecSequence(lib, b, outputs + step.result.outputs, step.world) else step
  {
    DissolvableRuns(lib, SEQUENCE, c, w, declared);
    assert outputs + map[] == outputs;
    SequenceOutputs(lib, a, outputs, map[], w);
    SequenceConcat(lib, a, b, outputs, w);
  }

  // ----- the node theorem -----

  predicate ConstantFlag(w: World) {
    w.fuse == None || w.fuse == Some(0)
  }

  /** Under a cancel flag that does not change, a node and any flattening of it return the same
      result, success, message, failing node and outputs, or throw the same exception, and
      leave the same variables, mailbox and mailbox traffic behind. */
  lemma {:induction false} FlattenedNodeRunsAlike(lib: Library, n: Node, d: Node, w: World, declared: bool)
    requires Flattened(n, d, declared) && ConstantFlag(w)
    ensures ExecNode(lib, n, w) == ExecNode(lib, d, w)
    decreases n, 1
  {
    if !IsCancelled(w) {
      var w1 := Polled(w).(store := ObserveAll(w.store, n.observation));
      match n.kind
      case SEQUENCE => FlattenedSequence(lib, n.children, d.children, map[], w1, declared);
      case SELECTOR => FlattenedSelector(lib, n.name, n.children, d.children, w1, declared);
      case PARALLEL => FlattenedParallel(lib, n.children, d.children, None, map[], w1, declared);
      case _ =>
    }
  }

  lemma {:induction false} FlattenedSequence(lib: Library, cs: seq<Node>, ds: seq<Node>, outputs: Bindings, w: World,
                                             declared: bool)
    requires FlattenedAll(SEQUENCE, cs, ds, declared) && w.fuse == None
    ensures ExecSequence(lib, cs, outputs, w) == ExecSequence(lib, ds, outputs, w)
    decreases cs, 0
  {
    if cs == [] {
    } else if ds != [] && Flattened(cs[0], ds[0], declared) && FlattenedAll(SEQUENCE, cs[1..], ds[1..], declared) {
      FlattenedNodeRunsAlike(lib, cs[0], ds[0], w, declared);
      NodeFuse(lib, cs[0], w);
      var step := ExecNode(lib, cs[0], w);
      if step.Succeeded() {
        FlattenedSequence(lib, cs[1..], ds[1..], outputs + step.result.outputs, step.world, declared);
      }
    } else {
      var k :| 0 <= k <= |ds| && FlattenedAll(SEQUENCE, cs[0].children, ds[..k], declared) &&
               FlattenedAll(SEQUENCE, cs[1..], ds[k..], declared);
      FlattenedSequence(lib, cs[0].children, ds[..k], map[], w, declared);
      DissolvedSequence(lib, cs[0], ds[..k], ds[k..], outputs, w, declared);
      assert ds[..k] + ds[k..] == ds;
      NodeFuse(lib, cs[0], w);
      var step := ExecNode(lib, cs[0], w);
      if step.Succeeded() {
        FlattenedSequence(lib, cs[1..], ds[k..], outputs + step.result.outputs, step.world, declared);
      }
    }
  }

  lemma {:induction false} FlattenedSelector(lib: Library, name: string, cs: seq<Node>, ds: seq<Node>, w: World,
                                             declared: bool)
    requires FlattenedAll(SELECTOR, cs, ds, declared) && w.fuse == None
    ensures ExecSelector(lib, name, cs, w) == ExecSelector(lib, name, ds, w)
    decreases cs, 0
  {
    if cs == [] {
    } else if ds != [] && Flattened(cs[0], ds[0], declared) && FlattenedAll(SELECTOR, cs[1..], ds[1..], declared) {
      FlattenedNodeRunsAlike(lib, cs[0], ds[0], w, declared);
      NodeFuse(lib, cs[0], w);
      FlattenedSelector(lib, name, cs[1..], ds[1..], ExecNode(lib, cs[0], w).world, declared);
    } else {
      var k :| 0 <= k <= |ds| && FlattenedAll(SELECTOR, cs[0].children, ds[..k], declared) &&
               FlattenedAll(SELECTOR, cs[1..], ds[k..], declared);
      DissolvableRuns(lib, SELECTOR, cs[0], w, declared);
      FlattenedSelector(lib, cs[0].name, cs[0].children, ds[..k], w, declared);
      NodeFuse(lib, cs[0], w);
      SelectorConcat(lib, name, cs[0].name, ds[..k], ds[k..], w);
      assert ds[..k] + ds[k..] == ds;
      FlattenedSelector(lib, name, cs[1..], ds[k..], ExecNode(lib, cs[0], w).world, declared);
    }
  }

  lemma {:induction false} FlattenedParallel(lib: Library, cs: seq<Node>, ds: seq<Node>, failed: Option<string>,
                                             outputs: Bindings, w: World, declared: bool)
    requires FlattenedAll(PARALLEL, cs, ds, declared) && w.fuse == None
    ensures ExecParallel(lib, cs, failed, outputs, w) == ExecParallel(lib, ds, failed, outputs, w)
    decreases cs, 0
  {
    if cs != [] {
      FlattenedNodeRunsAlike(lib, cs[0], ds[0], w, declared);
      NodeFuse(lib, cs[0], w);
      var step := ExecNode(lib, cs[0], w);
      if step.Succeeded() {
        FlattenedParallel(lib, cs[1..], ds[1..], failed, outputs + step.result.outputs, step.world, declared);
      } else if step.Returned? {
        var name := if step.result.failedNode == "" then cs[0].name else step.result.failedNode;
        FlattenedParallel(lib, cs[1..], ds[1..], if failed.Some? then failed else Some(name), outputs, step.world,
                          declared);
      }
    }
  }

  function Plain(name: string, kind: Kind, children: seq<Node>): Node {
    Node(name, kind, map[], children, "", "", map[], map[], map[])
  }

  lemma LeafSucceeds(lib: Library, leaf: Node, w: World)
    requires leaf == Plain(leaf.name, ACTION, []) && !IsCancelled(w)
    ensures ExecNode(lib, leaf, w) == Returned(Success(NoNote, map[]), Polled(w))
  {
    assert leaf.observation.Keys == {};
    assert Polled(w).(store := ObserveAll(w.store, leaf.observation)) == Polled(w);
  }

  // ----- a flag that is raised -----

  /** `j` leaves that do nothing, each after one look at the flag. */
  function Idle(j: nat): seq<Node> {
    if j == 0 then [] else [Plain("c", ACTION, [])] + Idle(j - 1)
  }

  lemma {:induction false} IdleRuns(lib: Library, j: nat, last: Node, w: World)
    requires w.fuse == Some(j)
    ensures ExecSequence(lib, Idle(j) + [last], map[], w) ==
            Returned(Failure(Cancelled, last.name), w.(fuse := Some(0)))
  {
    if j == 0 {
      assert Idle(j) + [last] == [last];
    } else {
      assert (Idle(j) + [last])[1..] == Idle(j - 1) + [last];
      LeafSucceeds(lib, Plain("c", ACTION, []), w);
      IdleRuns(lib, j - 1, last, w.(fuse := Some(j - 1)));
      var none: Bindings := map[];
      assert none + none == none;
    }
  }

  lemma {:induction false} IdleFlattened(j: nat)
    ensures FlattenedAll(SEQUENCE, Idle(j) + [Plain("b", SEQUENCE, [Plain("c", ACTION, [])])],
                         Idle(j) + [Plain("c", ACTION, [])], true)
  {
    var leaf := Plain("c", ACTION, []);
    var inner := Plain("b", SEQUENCE, [leaf]);
    var cs, ds := Idle(j) + [inner], Idle(j) + [leaf];
    assert Flattened(leaf, leaf, true);
    if j == 0 {
      assert cs == [inner] && ds == [leaf] && ds[..1] == [leaf] && [leaf][1..] == [] && ds[1..] == [] && cs[1..] == [];
      assert FlattenedAll(SEQUENCE, [leaf], [leaf], true);
      assert FlattenedAll(SEQUENCE, inner.children, ds[..1], true) && FlattenedAll(SEQUENCE, cs[1..], ds[1..], true);
    } else {
      IdleFlattened(j - 1);
      assert cs[1..] == Idle(j - 1) + [inner] && ds[1..] == Idle(j - 1) + [leaf];
      assert cs[0] == leaf && ds[0] == leaf;
    }
  }

  lemma IdleTree(lib: Library, k: nat, last: Node, w: World)
    requires w.fuse == Some(k + 1)
    ensures ExecNode(lib, Plain("a", SEQUENCE, Idle(k) + [last]), w) ==
            Returned(Failure(Cancelled, last.name), w.(fuse := Some(0)))
  {
    var n := Plain("a", SEQUENCE, Idle(k) + [last]);
    DissolvableRuns(lib, SEQUENCE, n, w, true);
    IdleRuns(lib, k, last, w.(fuse := Some(k)));
  }

  /** A flag that is raised after any number of looks tells some tree from its flattening: the
      dissolved node would have been the first to see it. */
  lemma RaisedFlagTellsApart(lib: Library, k: nat, w: World)
    requires w.fuse == Some(k + 1)
    ensures var leaf := Plain("c", ACTION, []);
      var n := Plain("a", SEQUENCE, Idle(k) + [Plain("b", SEQUENCE, [leaf])]);
      var d := Plain("a", SEQUENCE, Idle(k) + [leaf]);
      Flattened(n, d, true) && ExecNode(lib, n, w) != ExecNode(lib, d, w)
  {
    var leaf := Plain("c", ACTION, []);
    IdleFlattened(k);
    IdleTree(lib, k, Plain("b", SEQUENCE, [leaf]), w);
    IdleTree(lib, k, leaf, w);
  }

  /** Every tree runs like all its flattenings exactly under a flag that does not change. */
  lemma ConstantFlagIsExact(lib: Library, w: World)
    ensures ConstantFlag(w) <==> forall n, d | Flattened(n, d, true) :: ExecNode(lib, n, w) == ExecNode(lib, d, w)
  {
    if ConstantFlag(w) {
      forall n, d | Flattened(n, d, true) ensures ExecNode(lib, n, w) == ExecNode(lib, d, w) {
        FlattenedNodeRunsAlike(lib, n, d, w, true);
      }
    } else {
      RaisedFlagTellsApart(lib, w.fuse.value - 1, w);
    }
  }

  // ----- the task theorem -----

  lemma {:induction false} ExpandAllSplits(ds: seq<Node>, k: nat, params: T.Params)
    requires k <= |ds|
    ensures T.ExpandAll(ds, params)[..k] == T.ExpandAll(ds[..k], params)
    ensures T.ExpandAll(ds, params)[k..] == T.ExpandAll(ds[k..], params)
    decreases |ds|
  {
    if k > 0 {
      ExpandAllSplits(ds[1..], k - 1, params);
      assert ds[..k][1..] == ds[1..][..k - 1];
      assert ds[1..][k - 1..] == ds[k..];
      var all, rest := T.ExpandAll(ds, params), T.ExpandAll(ds[1..], params);
      assert all[..k] == [all[0]] + rest[..k - 1] && all[k..] == rest[k - 1..];
    } else {
      assert ds[..0] == [] && ds[0..] == ds;
    }
  }

  lemma ExpandDissolvable(kind: Kind, c: Node, declared: bool, params: T.Params)
    requires Dissolvable(kind, c, declared)
    ensures Dissolvable(kind, T.Expand(c, params), declared)
  {
    assert T.SubstituteAll(map[], params) == map[];
  }

  lemma {:induction false} ExpandFlattened(n: Node, d: Node, declared: bool, params: T.Params)
    requires Flattened(n, d, declared)
    ensures Flattened(T.Expand(n, params), T.Expand(d, params), declared)
    decreases n, 1
  {
    ExpandFlattenedAll(n.kind, n.children, d.children, declared, params);
  }

  lemma {:induction false} ExpandFlattenedAll(kind: Kind, cs: seq<Node>, ds: seq<Node>, declared: bool,
                                              params: T.Params)
    requires FlattenedAll(kind, cs, ds, declared)
    ensures FlattenedAll(kind, T.ExpandAll(cs, params), T.ExpandAll(ds, params), declared)
    decreases cs, 0
  {
    if cs != [] {
      var es, fs := T.ExpandAll(cs, params), T.ExpandAll(ds, params);
      ExpandAllSplits(cs, 1, params);
      if ds != [] && Flattened(cs[0], ds[0], declared) && FlattenedAll(kind, cs[1..], ds[1..], declared) {
        ExpandAllSplits(ds, 1, params);
        ExpandFlattened(cs[0], ds[0], declared, params);
        ExpandFlattenedAll(kind, cs[1..], ds[1..], declared, params);
      } else {
        var k :| 0 <= k <= |ds| && FlattenedAll(kind, cs[0].children, ds[..k], declared) &&
                 FlattenedAll(kind, cs[1..], ds[k..], declared);
        ExpandAllSplits(ds, k, params);
        ExpandDissolvable(kind, cs[0], declared, params);
        ExpandFlattenedAll(kind, cs[0].children, ds[..k], declared, params);
        ExpandFlattenedAll(kind, cs[1..], ds[k..], declared, params);
        assert FlattenedAll(kind, es[0].children, fs[..k], declared) && FlattenedAll(kind, es[1..], fs[k..], declared);
      }
    }
  }

  lemma {:induction false} DefaultsConcat(lib: Library, a: seq<Node>, b: seq<Node>, st: Store)
    ensures DefaultsAll(lib, a + b, st) == DefaultsAll(lib, b, DefaultsAll(lib, a, st))
    decreases |a|
  {
    if a == [] {
      assert a + b == b;
    } else {
      assert (a + b)[1..] == a[1..] + b;
      DefaultsConcat(lib, a[1..], b, Defaults(lib, a[0], st));
    }
  }

  lemma NothingDeclared(lib: Library, st: Store)
    ensures StoreFromParams(lib, st, map[], LOCAL) == st
  {
    assert st.local + Converted(lib, map[]) == st.local;
  }

  lemma {:induction false} FlattenedDefaults(lib: Library, n: Node, d: Node, st: Store)
    requires Flattened(n, d, true)
    ensures Defaults(lib, n, st) == Defaults(lib, d, st)
    decreases n, 1
  {
    var own := StoreFromParams(lib, StoreFromParams(lib, st, n.inits, LOCAL), n.constants, LOCAL);
    FlattenedDefaultsAll(lib, n.kind, n.children, d.children, own);
  }

  lemma {:induction false} FlattenedDefaultsAll(lib: Library, kind: Kind, cs: seq<Node>, ds: seq<Node>, st: Store)
    requires FlattenedAll(kind, cs, ds, true)
    ensures DefaultsAll(lib, cs, st) == DefaultsAll(lib, ds, st)
    decreases cs, 0
  {
    if cs == [] {
    } else if ds != [] && Flattened(cs[0], ds[0], true) && FlattenedAll(kind, cs[1..], ds[1..], true) {
      FlattenedDefaults(lib, cs[0], ds[0], st);
      FlattenedDefaultsAll(lib, kind, cs[1..], ds[1..], Defaults(lib, cs[0], st));
    } else {
      var k :| 0 <= k <= |ds| && FlattenedAll(kind, cs[0].children, ds[..k], true) &&
               FlattenedAll(kind, cs[1..], ds[k..], true);
      NothingDeclared(lib, st);
      FlattenedDefaultsAll(lib, kind, cs[0].children, ds[..k], st);
      FlattenedDefaultsAll(lib, kind, cs[1..], ds[k..], Defaults(lib, cs[0], st));
      DefaultsConcat(lib, ds[..k], ds[k..], st);
      assert ds[..k] + ds[k..] == ds;
    }
  }

  lemma PreparedAlike(lib: Library, task: Task, n: Node, d: Node, m: Machine)
    requires Flattened(n, d, true)
    ensures Prepared(lib, task, n, m) == Prepared(lib, task, d, m)
    ensures Prepared(lib, task, n, m).world.fuse == m.world.fuse
  {
    FlattenedDefaults(lib, n, d, TaskContext(lib, task, m.world.store));
  }

  /** Flattening a behaviour definition before it is instantiated: every task runs alike, down
      to its rollback, if the dissolved nodes declare no variables. */
  lemma FlattenedTaskRunsAlike(lib: Library, rollback: bool, task: Task, n: Node, d: Node, m: Machine)
    requires Flattened(n, d, true) && ConstantFlag(m.world)
    ensures ExecTask(lib, rollback, task, n, m) == ExecTask(lib, rollback, task, d, m)
  {
    var params := T.TemplateParams(n, task.params);
    var root, flat := T.Expand(n, params), T.Expand(d, params);
    ExpandFlattened(n, d, true, params);
    PreparedAlike(lib, task, root, flat, m);
    FlattenedNodeRunsAlike(lib, root, flat, Polled(Prepared(lib, task, root, m).world), true);
  }

  // ----- the full flattening -----

  function Flatten(n: Node, declared: bool): Node
    decreases n, 1
  {
    n.(children := FlattenAll(n.kind, n.children, declared))
  }

  function FlattenAll(kind: Kind, cs: seq<Node>, declared: bool): seq<Node>
    decreases cs, 0
  {
    if cs == [] then []
    else
      (if Dissolvable(kind, cs[0], declared) then FlattenAll(kind, cs[0].children, declared)
       else [Flatten(cs[0], declared)])
      + FlattenAll(kind, cs[1..], declared)
  }

  /** No node of the tree has a child it could dissolve. */
  predicate IsFlat(n: Node, declared: bool)
    decreases n, 1
  {
    IsFlatBelow(n.kind, n.children, declared)
  }

  predicate IsFlatBelow(kind: Kind, cs: seq<Node>, declared: bool)
    decreases cs, 0
  {
    cs == [] ||
    (!Dissolvable(kind, cs[0], declared) && IsFlat(cs[0], declared) && IsFlatBelow(kind, cs[1..], declared))
  }

  lemma {:induction false} FlatConcat(kind: Kind, a: seq<Node>, b: seq<Node>, declared: bool)
    requires IsFlatBelow(kind, a, declared) && IsFlatBelow(kind, b, declared)
    ensures IsFlatBelow(kind, a + b, declared)
  {
    if a == [] {
      assert a + b == b;
    } else {
      assert (a + b)[1..] == a[1..] + b;
      FlatConcat(kind, a[1..], b, declared);
    }
  }

  /** Flattening everywhere is one of the flattenings above, and leaves nothing to dissolve. */
  lemma {:induction false} FlattenIsFlattened(n: Node, declared: bool)
    ensures Flattened(n, Flatten(n, declared), declared) && IsFlat(Flatten(n, declared), declared)
    decreases n, 1
  {
    FlattenAllIsFlattened(n.kind, n.children, declared);
  }

  lemma {:induction false} FlattenAllIsFlattened(kind: Kind, cs: seq<Node>, declared: bool)
    ensures FlattenedAll(kind, cs, FlattenAll(kind, cs, declared), declared)
    ensures IsFlatBelow(kind, FlattenAll(kind, cs, declared), declared)
    decreases cs, 0
  {
    if cs != [] {
      var ds, rest := FlattenAll(kind, cs, declared), FlattenAll(kind, cs[1..], declared);
      FlattenAllIsFlattened(kind, cs[1..], declared);
      if Dissolvable(kind, cs[0], declared) {
        var inner := FlattenAll(kind, cs[0].children, declared);
        FlattenAllIsFlattened(kind, cs[0].children, declared);
        FlatConcat(kind, inner, rest, declared);
        assert ds[..|inner|] == inner && ds[|inner|..] == rest;
      } else {
        FlattenIsFlattened(cs[0], declared);
        assert ds[1..] == rest;
      }
    }
  }
}
