/** Sequence, Selector and Parallel against an independent description: the chain of runs of
    their children, each starting in the world its predecessor left. */
module ControlFlow {
  import opened Wrappers
  import opened Variables
  import opened Values
  import opened Behavior
  import opened Execution

  /** These are the runs of the first children, in order, each once. */
  ghost predicate Chain(lib: Library, nodes: seq<Node>, w: World, runs: seq<Step>) {
    runs == [] ||
    (nodes != [] && runs[0] == ExecNode(lib, nodes[0], w) && Chain(lib, nodes[1..], runs[0].world, runs[1..]))
  }

  /** The world behind these runs. */
  function End(w: World, runs: seq<Step>): World
    decreases |runs|
  {
    if runs == [] then w else End(runs[0].world, runs[1..])
  }

  predicate Fails(run: Step) {
    run.Returned? && !run.result.success
  }

  predicate AllSucceed(runs: seq<Step>) {
    runs == [] || (runs[0].Succeeded() && AllSucceed(runs[1..]))
  }

  predicate AllFail(runs: seq<Step>) {
    runs == [] || (Fails(runs[0]) && AllFail(runs[1..]))
  }

  predicate NoneThrows(runs: seq<Step>) {
    runs == [] || (runs[0].Returned? && NoneThrows(runs[1..]))
  }

  /** The outputs of the successful runs, later ones over earlier ones. */
  function Merged(runs: seq<Step>): Bindings {
    if runs == [] then map[]
    else (if runs[0].Succeeded() then runs[0].result.outputs else map[]) + Merged(runs[1..])
  }

  lemma Cons(lib: Library, nodes: seq<Node>, w: World, runs: seq<Step>)
    requires nodes != [] && Chain(lib, nodes[1..], ExecNode(lib, nodes[0], w).world, runs)
    ensures var all := [ExecNode(lib, nodes[0], w)] + runs;
      && all != [] && all[0] == ExecNode(lib, nodes[0], w) && all[1..] == runs
      && Chain(lib, nodes, w, all)
  {
    var first := ExecNode(lib, nodes[0], w);
    assert ([first] + runs)[1..] == runs;
  }

  lemma Associate(a: Bindings, b: Bindings, c: Bindings)
    ensures a + b + c == a + (b + c)
  {
  }

  lemma Absorb(a: Bindings)
    ensures a + map[] == a && map[] + a == a
  {
  }

  /** Split before the last run: the runs in front of it, and it. */
  function Front(runs: seq<Step>): seq<Step>
    requires runs != []
  {
    if |runs| == 1 then [] else [runs[0]] + Front(runs[1..])
  }

  lemma FrontShape(runs: seq<Step>)
    requires |runs| > 1
    ensures Front(runs) != [] && Front(runs)[0] == runs[0] && Front(runs)[1..] == Front(runs[1..])
    ensures runs[1..][|runs[1..]| - 1] == runs[|runs| - 1]
  {
  }

  // ----- Sequence -----

  /** A sequence runs its children in order up to the first that fails or throws, and returns
      that outcome unchanged; it succeeds exactly when all did, with their outputs merged. */
  lemma {:induction false} SequenceRuns(lib: Library, nodes: seq<Node>, outputs: Bindings, w: World)
    returns (runs: seq<Step>)
    ensures Chain(lib, nodes, w, runs)
    ensures AllSucceed(runs) ==>
              |runs| == |nodes| &&
              ExecSequence(lib, nodes, outputs, w) == Returned(Success(NoNote, outputs + Merged(runs)), End(w, runs))
    ensures !AllSucceed(runs) ==>
              AllSucceed(Front(runs)) && ExecSequence(lib, nodes, outputs, w) == runs[|runs| - 1]
    decreases |nodes|
  {
    runs := [];
    Absorb(outputs);
    if nodes != [] {
      var first := ExecNode(lib, nodes[0], w);
      var rest := [];
      if first.Succeeded() {
        rest := SequenceRuns(lib, nodes[1..], outputs + first.result.outputs, first.world);
        Associate(outputs, first.result.outputs, Merged(rest));
      }
      Cons(lib, nodes, w, rest);
      runs := [first] + rest;
      if |runs| > 1 {
        FrontShape(runs);
      }
    }
  }

  // ----- Selector -----

  /** A selector runs its children in order up to the first that succeeds or throws, and
      returns that outcome unchanged; it fails exactly when all did. Nothing is undone. */
  lemma {:induction false} SelectorRuns(lib: Library, name: string, nodes: seq<Node>, w: World)
    returns (runs: seq<Step>)
    ensures Chain(lib, nodes, w, runs)
    ensures AllFail(runs) ==>
              |runs| == |nodes| &&
              ExecSelector(lib, name, nodes, w) == Returned(Failure(AllBranchesFailed, name), End(w, runs))
    ensures !AllFail(runs) ==>
              AllFail(Front(runs)) && ExecSelector(lib, name, nodes, w) == runs[|runs| - 1]
    decreases |nodes|
  {
    runs := [];
    if nodes != [] {
      var first := ExecNode(lib, nodes[0], w);
      var rest := [];
      if Fails(first) {
        rest := SelectorRuns(lib, name, nodes[1..], first.world);
      }
      Cons(lib, nodes, w, rest);
      runs := [first] + rest;
      if |runs| > 1 {
        FrontShape(runs);
      }
    }
  }

  // ----- Parallel -----

  /** The name reported for the first failing child, if any. */
  function FirstFailed(nodes: seq<Node>, runs: seq<Step>): Option<string>
    requires |runs| <= |nodes|
  {
    if runs == [] then None
    else if Fails(runs[0]) then
      Some(if runs[0].result.failedNode == "" then nodes[0].name else runs[0].result.failedNode)
    else FirstFailed(nodes[1..], runs[1..])
  }

  /** Some run failed exactly when a name is reported. */
  lemma {:induction false} FirstFailedIffSomeFails(nodes: seq<Node>, runs: seq<Step>)
    requires |runs| <= |nodes| && NoneThrows(runs)
    ensures FirstFailed(nodes, runs).None? <==> AllSucceed(runs)
  {
    if runs != [] {
      FirstFailedIffSomeFails(nodes[1..], runs[1..]);
    }
  }

  /** What the loop remembers once the child `name` has run. */
  function Remember(failed: Option<string>, name: string, run: Step): Option<string>
    requires run.Returned?
  {
    if failed.Some? || run.Succeeded() then failed
    else Some(if run.result.failedNode == "" then name else run.result.failedNode)
  }

  lemma ParallelUnfolds(lib: Library, nodes: seq<Node>, failed: Option<string>, outputs: Bindings, w: World)
    requires nodes != [] && ExecNode(lib, nodes[0], w).Returned?
    ensures var first := ExecNode(lib, nodes[0], w);
      ExecParallel(lib, nodes, failed, outputs, w) ==
      ExecParallel(lib, nodes[1..], Remember(failed, nodes[0].name, first),
                   if first.Succeeded() then outputs + first.result.outputs else outputs, first.world)
  {
  }

  function Either(a: Option<string>, b: Option<string>): Option<string> {
    if a.Some? then a else b
  }

  lemma RememberFirst(failed: Option<string>, nodes: seq<Node>, runs: seq<Step>)
    requires runs != [] && |runs| <= |nodes| && runs[0].Returned?
    ensures Either(Remember(failed, nodes[0].name, runs[0]), FirstFailed(nodes[1..], runs[1..])) ==
            Either(failed, FirstFailed(nodes, runs))
  {
  }

  /** The result of a Parallel node whose first failing child has this name, if one failed. */
  function Joined(failed: Option<string>, outputs: Bindings): ExecutionResult {
    if failed.Some? then Failure(SomeChildrenFailed, failed.value) else Success(NoNote, outputs)
  }

  /** A Parallel node runs all its children, one after another, whatever fails; only an
      exception stops it. It succeeds exactly when all did, and otherwise names the first that
      failed and has no outputs. */
  lemma {:induction false} ParallelRuns(lib: Library, nodes: seq<Node>, failed: Option<string>, outputs: Bindings,
                                        w: World)
    returns (runs: seq<Step>)
    ensures Chain(lib, nodes, w, runs) && |runs| <= |nodes|
    ensures NoneThrows(runs) ==>
              |runs| == |nodes| &&
              ExecParallel(lib, nodes, failed, outputs, w) ==
              Returned(Joined(Either(failed, FirstFailed(nodes, runs)), outputs + Merged(runs)), End(w, runs))
    ensures !NoneThrows(runs) ==>
              NoneThrows(Front(runs)) && ExecParallel(lib, nodes, failed, outputs, w) == runs[|runs| - 1]
    decreases |nodes|
  {
    runs := [];
    Absorb(outputs);
    if nodes != [] {
      var first := ExecNode(lib, nodes[0], w);
      var rest := [];
      if first.Returned? {
        var own := if first.Succeeded() then first.result.outputs else map[];
        Absorb(outputs);
        ParallelUnfolds(lib, nodes, failed, outputs, w);
        rest := ParallelRuns(lib, nodes[1..], Remember(failed, nodes[0].name, first), outputs + own, first.world);
        Associate(outputs, own, Merged(rest));
      }
      Cons(lib, nodes, w, rest);
      runs := [first] + rest;
      if first.Returned? {
        RememberFirst(failed, nodes, runs);
      }
      if |runs| > 1 {
        FrontShape(runs);
      }
    }
  }
}
