/** What one node does: cancellation, observations, precondition, the run of its body, and the
    names under which it puts values out (src/executor/generic_executor.cpp). */
module NodeOutcomes {
  import opened Wrappers
  import opened Text
  import opened Values
  import opened Variables
  import opened Behavior
  import opened Execution
  import C = Constraints

  // ----- observations -----

  /** The variable under which a sensor's value is also known. */
  predicate HasAlias(sensor: string, alias: string) {
    || (sensor == "POS_X" && alias == "x") || (sensor == "POS_Y" && alias == "y") || (sensor == "POS_Z" && alias == "z")
    || (sensor == "TARGET_X" && alias == "tx") || (sensor == "TARGET_Y" && alias == "ty")
    || (sensor == "TARGET_Z" && alias == "tz")
    || (sensor == "REC" && alias == "rec_type") || (sensor == "REC_TRUE" && alias == "rec_type_true")
  }

  ghost predicate Aliased(st: Store, sensor: string) {
    exists alias :: HasAlias(sensor, alias) && Exists(st, alias)
  }

  /** What a sensor that nobody knows shows: a text, a flag or a number, by its name. */
  predicate IsDefault(sensor: string, v: Value) {
    if Contains(sensor, "REC") || Contains(sensor, "TYPE") then v == Str("")
    else if Contains(sensor, "IS_") || Contains(sensor, "FLAG") || Contains(sensor, "LIGHT") then v == Bool(false)
    else v == Double(Finite(0.0))
  }

  /** The value with which `name` observes `sensor` in a store. */
  ghost predicate Shows(st: Store, name: string, sensor: string, v: Value) {
    && (Exists(st, sensor) ==> Get(st, sensor) == Some(v))
    && (!Exists(st, sensor) ==>
          && (forall alias | HasAlias(sensor, alias) && Exists(st, alias) :: Get(st, alias) == Some(v))
          && (!Aliased(st, sensor) && Exists(st, name) ==> Get(st, name) == Some(v))
          && (!Aliased(st, sensor) && !Exists(st, name) ==> IsDefault(sensor, v)))
  }

  lemma ObservedShows(st: Store, name: string, sensor: string)
    ensures Shows(st, name, sensor, Observed(st, name, sensor))
  {
    var alias := ObservationAlias(sensor);
    assert alias != "" ==> HasAlias(sensor, alias);
    forall a | HasAlias(sensor, a) ensures a == alias {
    }
  }

  /** No sensor, and no alias of one, is itself among the observed names. */
  ghost predicate Separate(observation: map<string, string>) {
    forall n | n in observation ::
      observation[n] !in observation && forall alias | HasAlias(observation[n], alias) :: alias !in observation
  }

  /** Outside these names the stores agree. */
  ghost predicate AgreeOutside(a: Store, b: Store, names: set<string>) {
    a.global == b.global && a.intermediate == b.intermediate && forall k | k !in names :: Get(a, k) == Get(b, k)
  }

  lemma ShowsAlike(a: Store, b: Store, name: string, sensor: string, v: Value, names: set<string>)
    requires AgreeOutside(a, b, names) && name !in names && sensor !in names
    requires forall alias | HasAlias(sensor, alias) :: alias !in names
    requires Shows(a, name, sensor, v)
    ensures Shows(b, name, sensor, v)
  {
    forall k | k !in names ensures Exists(a, k) == Exists(b, k) && Get(a, k) == Get(b, k) {
      assert Exists(a, k) <==> Get(a, k).Some?;
    }
  }

  /** The names in `done` are observed, all else is as before. */
  ghost predicate Observing(before: Store, now: Store, observation: map<string, string>, done: set<string>) {
    && done <= observation.Keys
    && now.global == before.global && now.intermediate == before.intermediate
    && now.local.Keys == before.local.Keys + done
    && (forall k | k in before.local && k !in done :: now.local[k] == before.local[k])
    && (forall n | n in done :: Shows(before, n, observation[n], now.local[n]))
  }

  lemma ObservesOneMore(before: Store, now: Store, observation: map<string, string>, done: set<string>, n: string)
    requires Separate(observation) && Observing(before, now, observation, done) && n in observation && n !in done
    ensures Observing(before, Set(now, n, Observed(now, n, observation[n]), LOCAL), observation, done + {n})
  {
    var v := Observed(now, n, observation[n]);
    ObservedShows(now, n, observation[n]);
    ShowsAlike(now, before, n, observation[n], v, done);
  }

  lemma {:induction false} ObserveKeysObserve(before: Store, now: Store, observation: map<string, string>,
                                              keys: seq<string>, done: set<string>)
    requires Separate(observation) && Observing(before, now, observation, done) && Ascending(keys)
    requires (forall k | k in keys :: k in observation && k !in done) && forall k | k in observation ::
        k in done || k in keys
    ensures Observing(before, ObserveKeys(now, observation, keys), observation, observation.Keys)
    decreases |keys|
  {
    if keys == [] {
      assert done == observation.Keys;
    } else {
      var n := keys[0];
      assert n in keys && keys == [n] + keys[1..];
      ObservesOneMore(before, now, observation, done, n);
      forall k | k in keys[1..] ensures k != n {
        var i :| 0 <= i < |keys[1..]| && keys[1..][i] == k;
        assert StrLess(keys[0], keys[i + 1]);
        StrTrichotomy(n, k);
      }
      var next := Set(now, n, Observed(now, n, observation[n]), LOCAL);
      ObserveKeysObserve(before, next, observation, keys[1..], done + {n});
    }
  }

  /** Every observed name gets, in LOCAL, its sensor's value in the store before: the sensor's own,
      else its alias's, else what the name held, else the sensor's default. Nothing else changes. */
  lemma ObservationsShow(st: Store, observation: map<string, string>)
    requires Separate(observation)
    ensures Observing(st, ObserveAll(st, observation), observation, observation.Keys)
  {
    var none: set<string> := {};
    SortedKeysAscending(observation.Keys);
    assert st.local.Keys == st.local.Keys + none;
    ObserveKeysObserve(st, st, observation, SortedKeys(observation.Keys), none);
  }

  // ----- the outcome of a node -----

  /** The world in which a node's precondition is looked at: one look at the cancel flag later,
      with its observations. */
  function Entered(n: Node, w: World): World {
    w.(fuse := if w.fuse.Some? && w.fuse.value > 0 then Some(w.fuse.value - 1) else w.fuse,
       store := ObserveAll(w.store, n.observation))
  }

  /** A cancelled node fails under its own name and changes nothing. */
  lemma CancelledNode(lib: Library, n: Node, w: World)
    requires w.fuse == Some(0)
    ensures ExecNode(lib, n, w) == Returned(ExecutionResult(false, Cancelled, n.name, map[]), w)
  {
  }

  /** A node of any kind whose precondition does not hold fails under its own name, with the reason,
      behind its observations; neither its children nor its command run. */
  lemma BlockedNode(lib: Library, n: Node, w: World)
    requires w.fuse != Some(0) && n.expression != ""
    requires !C.Evaluated(lib, Entered(n, w).store, n.expression).satisfied
    ensures var reason := C.Evaluated(lib, Entered(n, w).store, n.expression).message;
      ExecNode(lib, n, w) == Returned(ExecutionResult(false, Blocked(reason), n.name, map[]), Entered(n, w))
  {
  }

  /** A Condition succeeds exactly when it has an expression and that is satisfied in the observed
      store; it never throws, and changes nothing behind its observations. */
  lemma ConditionNode(lib: Library, n: Node, w: World)
    requires w.fuse != Some(0) && n.kind == CONDITION
    ensures var step, seen := ExecNode(lib, n, w), Entered(n, w);
      && step.Returned? && step.world == seen
      && (step.result.success <==> n.expression != "" && C.Evaluated(lib, seen.store, n.expression).satisfied)
      && (step.result.success ==> step.result.message == ConditionTrue && step.result.failedNode == "")
      && (step.result.success && n.params == map[] ==> step.result.outputs == map[])
      && (!step.result.success ==> step.result.failedNode == n.name && step.result.outputs == map[])
      && (n.expression == "" ==> step.result.message == MissingExpression)
  {
  }

  // ----- the names of outputs -----

  function OutputName(node: string, k: string): string {
    node + "." + k
  }

  /** No parameter is named like the qualified output of another. */
  ghost predicate Unambiguous(node: string, params: map<string, string>) {
    forall j, k | j in params && k in params :: k != OutputName(node, j)
  }

  /** What a parameter is put out as: the body's output of that name, else the variable of that
      name, else the parameter's text. */
  function PutOut(st: Store, params: map<string, string>, outputs: Bindings, k: string): Value
    requires k in params
  {
    if k in outputs then outputs[k] else if Exists(st, k) then Get(st, k).value else Str(params[k])
  }

  lemma OutputNameInjective(node: string, j: string, k: string)
    ensures OutputName(node, j) == OutputName(node, k) ==> j == k
  {
    assert OutputName(node, j)[|node| + 1..] == j && OutputName(node, k)[|node| + 1..] == k;
  }

  /** The outputs qualified so far. */
  ghost predicate Qualified(node: string, params: map<string, string>, st: Store, before: Bindings, now: Bindings,
                            done: set<string>)
  {
    && (forall k | k in done :: k in params && OutputName(node, k) in now &&
                                now[OutputName(node, k)] == PutOut(st, params, before, k))
    && (forall n | n in before && !IsQualified(node, n, done) :: n in now && now[n] == before[n])
    && (forall n | n in now :: n in before || IsQualified(node, n, done))
  }

  ghost predicate IsQualified(node: string, n: string, keys: set<string>) {
    exists k :: k in keys && n == OutputName(node, k)
  }

  lemma IsQualifiedOneMore(node: string, n: string, done: set<string>, k: string)
    ensures IsQualified(node, n, done + {k}) <==> IsQualified(node, n, done) || n == OutputName(node, k)
  {
    if IsQualified(node, n, done) {
      var j :| j in done && n == OutputName(node, j);
      assert j in done + {k};
    }
    if n == OutputName(node, k) {
      assert k in done + {k};
    }
  }

  lemma NotQualified(node: string, params: map<string, string>, done: set<string>, k: string)
    requires Unambiguous(node, params) && done <= params.Keys && k in params && k !in done
    ensures !IsQualified(node, k, done) && !IsQualified(node, OutputName(node, k), done)
  {
    forall j | j in done ensures OutputName(node, j) != OutputName(node, k) {
      OutputNameInjective(node, j, k);
    }
  }

  lemma QualifiesOneMore(node: string, params: map<string, string>, st: Store, before: Bindings, now: Bindings,
                         done: set<string>, k: string)
    requires Unambiguous(node, params) && Qualified(node, params, st, before, now, done) && k in params && k !in done
    ensures k in now <==> k in before
    ensures k in before ==> now[k] == before[k]
    ensures Qualified(node, params, st, before, now[OutputName(node, k) := PutOut(st, params, before, k)], done + {k})
  {
    NotQualified(node, params, done, k);
    forall n ensures IsQualified(node, n, done + {k}) <==> IsQualified(node, n, done) || n == OutputName(node, k) {
      IsQualifiedOneMore(node, n, done, k);
    }
    forall j | j in done ensures OutputName(node, j) != OutputName(node, k) {
      OutputNameInjective(node, j, k);
    }
  }

  lemma {:induction false} AppendQualifies(node: string, params: map<string, string>, keys: seq<string>, st: Store,
                                           before: Bindings, now: Bindings, done: set<string>)
    requires Unambiguous(node, params) && Qualified(node, params, st, before, now, done) && Ascending(keys)
    requires forall k | k in keys :: k in params && k !in done
    requires forall k | k in params :: k in done || k in keys
    ensures Qualified(node, params, st, before, AppendParams(node, params, keys, st, now), params.Keys)
    decreases |keys|
  {
    if keys == [] {
      assert done == params.Keys;
    } else {
      var k := keys[0];
      assert k in keys && keys == [k] + keys[1..];
      QualifiesOneMore(node, params, st, before, now, done, k);
      forall j | j in keys[1..] ensures j != k {
        var i :| 0 <= i < |keys[1..]| && keys[1..][i] == j;
        assert StrLess(keys[0], keys[i + 1]);
        StrTrichotomy(k, j);
      }
      AppendQualifies(node, params, keys[1..], st, before,
                      now[OutputName(node, k) := PutOut(st, params, before, k)], done + {k});
    }
  }

  /** What a node of some kind runs behind its precondition. */
  function Body(lib: Library, n: Node, w: World): Step {
    match n.kind
    case CONDITION => ExecCondition(lib, n, w)
    case SEQUENCE => ExecSequence(lib, n.children, map[], w)
    case SELECTOR => ExecSelector(lib, n.name, n.children, w)
    case PARALLEL => ExecParallel(lib, n.children, None, map[], w)
    case _ => ExecCommand(lib, n.command, n.params, w)
  }

  /** How a body's step is handed on: after a success every parameter is put out under the node's
      name, and under its own name no longer. */
  ghost predicate HandsOn(node: string, params: map<string, string>, body: Step, step: Step) {
    if !body.Succeeded() then step == body
    else
      && step.Returned? && step.world == body.world
      && step.result == body.result.(outputs := step.result.outputs)
      && (Unambiguous(node, params) ==>
            exists all ::
              && Qualified(node, params, body.world.store, body.result.outputs, all, params.Keys)
              && step.result.outputs == all - params.Keys)
  }

  lemma FinishedHandsOn(node: string, params: map<string, string>, body: Step)
    ensures HandsOn(node, params, body, Finished(node, params, body))
  {
    if body.Succeeded() && Unambiguous(node, params) {
      var outputs := body.result.outputs;
      SortedKeysAscending(params.Keys);
      assert Qualified(node, params, body.world.store, outputs, outputs, {});
      AppendQualifies(node, params, SortedKeys(params.Keys), body.world.store, outputs, outputs, {});
      if params == map[] {
        assert outputs - params.Keys == outputs;
      }
    }
  }

  /** A node that is not cancelled and whose precondition holds, or is missing, runs its body: an
      exception, a failure and the world are the body's. */
  lemma RunningNode(lib: Library, n: Node, w: World)
    requires w.fuse != Some(0)
    requires n.expression == "" || C.Evaluated(lib, Entered(n, w).store, n.expression).satisfied
    ensures HandsOn(n.name, n.params, Body(lib, n, Entered(n, w)), ExecNode(lib, n, w))
  {
    FinishedHandsOn(n.name, n.params, Body(lib, n, Entered(n, w)));
    assert ExecNode(lib, n, w) == Finished(n.name, n.params, Body(lib, n, Entered(n, w)));
  }
}
