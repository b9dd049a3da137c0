/** ASSIGN stores in key order while it evaluates; it is a simultaneous assignment exactly when no
    expression is affected by the new values of the keys that sort before its own. In the sample
    mission `dist` sorts before the `dx`, `dy` and `dz` it is computed from, so it is computed
    from their old values. */
module Assignments {
  import opened Wrappers
  import opened Text
  import opened Values
  import opened Variables
  import opened ValueExpressions
  import opened Execution
  import opened ReadSets
  import opened Commands

  /** No expression names a key that is stored before it is evaluated; naming keys that sort
      later, or its own, does no harm. */
  ghost predicate Independent(lib: Library, params: map<string, string>) {
    forall j, k | j in params && k in params && StrLess(j, k) :: j !in NamesIn(lib, params[k])
  }

  /** Every expression has a value before anything is assigned. */
  ghost predicate AllDefined(lib: Library, st: Store, params: map<string, string>) {
    forall k | k in params :: EvalValue(lib, st, params[k]).Ok?
  }

  /** All the values at once, in the store before the command. */
  function ValuesBefore(lib: Library, st: Store, params: map<string, string>): Bindings {
    map k | k in params && EvalValue(lib, st, params[k]).Ok? :: EvalValue(lib, st, params[k]).value
  }

  /** The loop of ASSIGN with every expression evaluated in the store `before` the command. */
  function Simultaneous(lib: Library, before: Store, params: map<string, string>, keys: seq<string>, outputs: Bindings,
                        w: World): Step
    requires forall k | k in keys :: k in params
    decreases |keys|
  {
    if keys == [] then Returned(Success(NoNote, outputs), w)
    else
      var k := keys[0];
      match EvalValue(lib, before, params[k])
      case Err(e) => Thrown(e, w)
      case Ok(v) => Simultaneous(lib, before, params, keys[1..], outputs[k := v],
                                 w.(store := Set(w.store, k, v, LOCAL)))
  }

  /** The values for the keys in `keys`. */
  function Selected(values: Bindings, keys: seq<string>): Bindings {
    map k | k in values && k in keys :: values[k]
  }

  /** The store when the keys in `front` hold the values their expressions had before the command. */
  function Stored(lib: Library, before: Store, params: map<string, string>, front: seq<string>): Store {
    before.(local := before.local + Selected(ValuesBefore(lib, before, params), front))
  }

  /** Each expression, up to the first without a value, is worth the same in the store before the
      command and in that store with the values of the keys in front of it. */
  predicate Unaffected(lib: Library, before: Store, params: map<string, string>, front: seq<string>, keys: seq<string>)
    requires forall k | k in keys :: k in params
    decreases |keys|
  {
    if keys == [] then true
    else
      var e := EvalValue(lib, before, params[keys[0]]);
      && EvalValue(lib, Stored(lib, before, params, front), params[keys[0]]) == e
      && (e.Ok? ==> Unaffected(lib, before, params, front + [keys[0]], keys[1..]))
  }

  lemma StoredNone(lib: Library, before: Store, params: map<string, string>)
    ensures Stored(lib, before, params, []) == before
  {
    assert before.local + Selected(ValuesBefore(lib, before, params), []) == before.local;
  }

  lemma StoredOneMore(lib: Library, before: Store, params: map<string, string>, front: seq<string>, k: string)
    requires k in params && EvalValue(lib, before, params[k]).Ok?
    ensures Set(Stored(lib, before, params, front), k, EvalValue(lib, before, params[k]).value, LOCAL) ==
            Stored(lib, before, params, front + [k])
  {
    var values := ValuesBefore(lib, before, params);
    assert forall x :: x in front + [k] <==> x in front || x == k;
    assert (before.local + Selected(values, front))[k := values[k]] == before.local + Selected(values, front + [k]);
  }

  lemma {:induction false} UnaffectedRuns(lib: Library, before: Store, params: map<string, string>,
                                          front: seq<string>, keys: seq<string>, outputs: Bindings, w: World)
    requires forall k | k in keys :: k in params
    requires Unaffected(lib, before, params, front, keys) && w.store == Stored(lib, before, params, front)
    ensures ParamLoop(lib, ToLocal, params, keys, outputs, w) == Simultaneous(lib, before, params, keys, outputs, w)
    decreases |keys|
  {
    if keys != [] {
      var k, e := keys[0], EvalValue(lib, before, params[keys[0]]);
      if e.Ok? {
        StoredOneMore(lib, before, params, front, k);
        UnaffectedRuns(lib, before, params, front + [k], keys[1..], outputs[k := e.value],
                       w.(store := Set(w.store, k, e.value, LOCAL)));
      }
    }
  }

  /** What the loop has put out under other keys stays. */
  lemma {:induction false} OutputStays(lib: Library, params: map<string, string>, keys: seq<string>,
                                       outputs: Bindings, w: World, j: string)
    requires (forall k | k in keys :: k in params) && j in outputs && j !in keys
    ensures var step := ParamLoop(lib, ToLocal, params, keys, outputs, w);
      step.Returned? ==> j in step.result.outputs && step.result.outputs[j] == outputs[j]
    decreases |keys|
  {
    if keys != [] {
      var k, e := keys[0], EvalValue(lib, w.store, params[keys[0]]);
      assert k in keys;
      if e.Ok? {
        OutputStays(lib, params, keys[1..], outputs[k := e.value],
                    w.(store := Deliver(ToLocal, w.store, k, e.value)), j);
      }
    }
  }

  lemma AscendingTail(keys: seq<string>)
    requires Ascending(keys) && keys != []
    ensures Ascending(keys[1..]) && keys[0] !in keys[1..]
    ensures forall k | k in keys[1..] :: k in keys && StrLess(keys[0], k)
  {
    StrTrichotomy(keys[0], keys[0]);
    forall k | k in keys[1..] ensures k in keys && StrLess(keys[0], k) {
      var i :| 0 <= i < |keys[1..]| && keys[1..][i] == k;
      assert keys[i + 1] == k && StrLess(keys[0], keys[i + 1]);
    }
  }

  /** A loop that puts out the values before the command was not affected by what it stored. */
  lemma {:induction false} OutputsTellUnaffected(lib: Library, before: Store, params: map<string, string>,
                                                 front: seq<string>, keys: seq<string>, outputs: Bindings, w: World)
    requires Ascending(keys) && (forall k | k in keys :: k in params) && AllDefined(lib, before, params)
    requires w.store == Stored(lib, before, params, front)
    requires var step := ParamLoop(lib, ToLocal, params, keys, outputs, w);
      step.Returned? && forall k | k in keys && k in step.result.outputs ::
        step.result.outputs[k] == ValuesBefore(lib, before, params)[k]
    ensures Unaffected(lib, before, params, front, keys)
    decreases |keys|
  {
    if keys != [] {
      var k, e := keys[0], EvalValue(lib, w.store, params[keys[0]]);
      assert k in keys;
      AscendingTail(keys);
      var next := w.(store := Set(w.store, k, e.value, LOCAL));
      OutputStays(lib, params, keys[1..], outputs[k := e.value], next, k);
      StoredOneMore(lib, before, params, front, k);
      OutputsTellUnaffected(lib, before, params, front + [k], keys[1..], outputs[k := e.value], next);
    }
  }

  lemma SelectedStep(m: Bindings, values: Bindings, keys: seq<string>)
    requires keys != [] && keys[0] in values
    ensures m[keys[0] := values[keys[0]]] + Selected(values, keys[1..]) == m + Selected(values, keys)
  {
  }

  lemma {:induction false} SimultaneousValues(lib: Library, before: Store, params: map<string, string>,
                                              keys: seq<string>, outputs: Bindings, w: World)
    requires forall k | k in keys :: k in params
    requires AllDefined(lib, before, params)
    ensures var vs := Selected(ValuesBefore(lib, before, params), keys);
      Simultaneous(lib, before, params, keys, outputs, w) ==
      Returned(Success(NoNote, outputs + vs), w.(store := w.store.(local := w.store.local + vs)))
    decreases |keys|
  {
    var values := ValuesBefore(lib, before, params);
    if keys == [] {
      assert outputs + Selected(values, []) == outputs && w.store.local + Selected(values, []) == w.store.local;
    } else {
      var k := keys[0];
      assert k in keys && k in values;
      SimultaneousValues(lib, before, params, keys[1..], outputs[k := values[k]],
                         w.(store := Set(w.store, k, values[k], LOCAL)));
      SelectedStep(outputs, values, keys);
      SelectedStep(w.store.local, values, keys);
    }
  }

  /** ASSIGN stores, and outputs, every value its expressions had before the command, although
      it stores while it evaluates, exactly when no expression is affected by the values of the
      keys in front of it. */
  lemma SimultaneousIffUnaffected(lib: Library, command: string, params: map<string, string>, w: World)
    requires Says(command, "ASSIGN") && AllDefined(lib, w.store, params)
    ensures var vs := ValuesBefore(lib, w.store, params);
      Unaffected(lib, w.store, params, [], SortedKeys(params.Keys)) <==>
      ExecCommand(lib, command, params, w) ==
      Returned(Success(NoNote, vs), w.(store := w.store.(local := w.store.local + vs)))
  {
    var keys := SortedKeys(params.Keys);
    AssignRuns(lib, command, params, w);
    StoredNone(lib, w.store, params);
    SortedKeysAscending(params.Keys);
    if Unaffected(lib, w.store, params, [], keys) {
      UnaffectedRuns(lib, w.store, params, [], keys, map[], w);
      SimultaneousValues(lib, w.store, params, keys, map[], w);
      AllSelected(ValuesBefore(lib, w.store, params), keys);
    }
    var vs := ValuesBefore(lib, w.store, params);
    if ExecCommand(lib, command, params, w) ==
       Returned(Success(NoNote, vs), w.(store := w.store.(local := w.store.local + vs))) {
      OutputsTellUnaffected(lib, w.store, params, [], keys, map[], w);
    }
  }

  lemma IndependentReads(lib: Library, before: Store, params: map<string, string>, front: seq<string>, k: string)
    requires Independent(lib, params) && k in params && forall x | x in front :: x in params && StrLess(x, k)
    ensures EvalValue(lib, Stored(lib, before, params, front), params[k]) == EvalValue(lib, before, params[k])
  {
    var now := Stored(lib, before, params, front);
    assert Agree(now, before, NamesIn(lib, params[k]));
    ValueReadsItsNames(lib, now, before, params[k]);
  }

  /** Every key in `front` sorts before every key in `keys`. */
  predicate Ahead(front: seq<string>, keys: seq<string>, params: map<string, string>) {
    forall x, k | x in front && k in keys :: x in params && StrLess(x, k)
  }

  lemma AheadOneMore(front: seq<string>, keys: seq<string>, params: map<string, string>)
    requires Ahead(front, keys, params) && Ascending(keys) && keys != [] && keys[0] in params
    ensures Ahead(front + [keys[0]], keys[1..], params)
  {
    AscendingTail(keys);
  }

  /** Independence is enough, whatever the store. */
  lemma {:induction false} IndependentIsUnaffected(lib: Library, before: Store, params: map<string, string>,
                                                   front: seq<string>, keys: seq<string>)
    requires Independent(lib, params) && Ascending(keys) && (forall k | k in keys :: k in params)
    requires Ahead(front, keys, params)
    ensures Unaffected(lib, before, params, front, keys)
    decreases |keys|
  {
    if keys != [] {
      assert keys[0] in keys;
      AscendingTail(keys);
      IndependentReads(lib, before, params, front, keys[0]);
      AheadOneMore(front, keys, params);
      IndependentIsUnaffected(lib, before, params, front + [keys[0]], keys[1..]);
    }
  }

  /** So with independent expressions ASSIGN is a simultaneous assignment. */
  lemma AssignStoresValuesBefore(lib: Library, command: string, params: map<string, string>, w: World)
    requires Says(command, "ASSIGN") && Independent(lib, params) && AllDefined(lib, w.store, params)
    ensures var vs := ValuesBefore(lib, w.store, params);
      ExecCommand(lib, command, params, w) ==
      Returned(Success(NoNote, vs), w.(store := w.store.(local := w.store.local + vs)))
  {
    SortedKeysAscending(params.Keys);
    IndependentIsUnaffected(lib, w.store, params, [], SortedKeys(params.Keys));
    SimultaneousIffUnaffected(lib, command, params, w);
  }

  lemma AllSelected(values: Bindings, keys: seq<string>)
    requires forall k | k in values :: k in keys
    ensures map[] + Selected(values, keys) == Selected(values, keys) == values
  {
  }

  lemma {:induction false} SimultaneousThrows(lib: Library, before: Store, params: map<string, string>,
                                              keys: seq<string>, outputs: Bindings, w: World, i: nat)
    requires forall k | k in keys :: k in params
    requires i < |keys| && EvalValue(lib, before, params[keys[i]]).Err?
    requires forall j | 0 <= j < i :: EvalValue(lib, before, params[keys[j]]).Ok?
    ensures var step := Simultaneous(lib, before, params, keys, outputs, w);
      step.Thrown? && step.error == EvalValue(lib, before, params[keys[i]]).error
    decreases |keys|
  {
    if i > 0 {
      var k := keys[0];
      var v := EvalValue(lib, before, params[k]).value;
      forall j | 0 <= j < i - 1 ensures EvalValue(lib, before, params[keys[1..][j]]).Ok? {
        assert keys[1..][j] == keys[j + 1];
      }
      SimultaneousThrows(lib, before, params, keys[1..], outputs[k := v], w.(store := Set(w.store, k, v, LOCAL)),
                         i - 1);
    }
  }

  /** If an expression has no value before the command, ASSIGN throws the error of the first such
      key, in key order, unless an expression in front of it, or its own, is affected. */
  lemma AssignThrowsFirstError(lib: Library, command: string, params: map<string, string>, w: World, i: nat)
    requires Says(command, "ASSIGN") && Unaffected(lib, w.store, params, [], SortedKeys(params.Keys))
    requires var keys := SortedKeys(params.Keys);
      && i < |keys| && EvalValue(lib, w.store, params[keys[i]]).Err?
      && forall j | 0 <= j < i :: EvalValue(lib, w.store, params[keys[j]]).Ok?
    ensures var step := ExecCommand(lib, command, params, w);
      step.Thrown? && step.error == EvalValue(lib, w.store, params[SortedKeys(params.Keys)[i]]).error
  {
    var keys := SortedKeys(params.Keys);
    AssignRuns(lib, command, params, w);
    StoredNone(lib, w.store, params);
    UnaffectedRuns(lib, w.store, params, [], keys, map[], w);
    SimultaneousThrows(lib, w.store, params, keys, map[], w, i);
  }

  lemma SortedPair(j: string, k: string)
    requires StrLess(j, k)
    ensures SortedKeys({j, k}) == [j, k]
  {
    StrTrichotomy(j, k);
    LeastUnique({j, k}, Least({j, k}), j);
    assert {j, k} - {j} == {k};
    LeastUnique({k}, Least({k}), k);
    assert {k} - {k} == {};
    assert SortedKeys({k}) == [k] + SortedKeys({});
  }

  /** Without independence the order shows: an expression that names a key sorted before it
      reads the new value. */
  lemma LaterKeyReadsNewValue(lib: Library, command: string, j: string, k: string, expression: string, w: World)
    requires Says(command, "ASSIGN")
    requires StrLess(j, k) && Trimmed(j) == j && j != "" && !IsQuoted(j) && !IsTrueWord(j) && !IsFalseWord(j)
    requires EvalValue(lib, w.store, expression).Ok?
    ensures var v := EvalValue(lib, w.store, expression).value;
      ExecCommand(lib, command, map[j := expression, k := j], w) ==
      Returned(Success(NoNote, map[j := v, k := v]), w.(store := w.store.(local := w.store.local[j := v][k := v])))
  {
    var params := map[j := expression, k := j];
    AssignRuns(lib, command, params, w);
    StrTrichotomy(j, k);
    assert params.Keys == {j, k};
    SortedPair(j, k);
    var v := EvalValue(lib, w.store, expression).value;
    var w1 := w.(store := Set(w.store, j, v, LOCAL));
    assert EvalValue(lib, w1.store, params[k]) == Ok(v);
    var w2 := w1.(store := Set(w1.store, k, v, LOCAL));
    assert ParamLoop(lib, ToLocal, params, [], map[j := v][k := v], w2) ==
      Returned(Success(NoNote, map[j := v, k := v]), w2);
    assert [j, k][1..] == [k] && [k][1..] == [];
    assert ParamLoop(lib, ToLocal, params, [k], map[j := v], w1) == Returned(Success(NoNote, map[j := v, k := v]), w2);
  }
}
