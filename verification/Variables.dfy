/** `VariableManager` (src/executor/variable_manager.cpp): three scopes and snapshots. */
module Variables {
  import opened Wrappers
  import opened Text
  import opened Values

  datatype Scope = GLOBAL | LOCAL | INTERMEDIATE

  type Bindings = map<string, Value>

  datatype Store = Store(global: Bindings, local: Bindings, intermediate: Bindings)

  predicate Exists(st: Store, name: string) {
    name in st.local || name in st.intermediate || name in st.global
  }

  /** LOCAL hides INTERMEDIATE hides GLOBAL. */
  function Get(st: Store, name: string): Option<Value> {
    if name in st.local then Some(st.local[name])
    else if name in st.intermediate then Some(st.intermediate[name])
    else if name in st.global then Some(st.global[name])
    else None
  }

  function ScopeMap(st: Store, scope: Scope): Bindings {
    match scope
    case GLOBAL => st.global
    case LOCAL => st.local
    case INTERMEDIATE => st.intermediate
  }

  function WithScope(st: Store, scope: Scope, m: Bindings): Store {
    match scope
    case GLOBAL => st.(global := m)
    case LOCAL => st.(local := m)
    case INTERMEDIATE => st.(intermediate := m)
  }

  function Set(st: Store, name: string, v: Value, scope: Scope): Store {
    WithScope(st, scope, ScopeMap(st, scope)[name := v])
  }

  /** A variable set in LOCAL is seen; one set in INTERMEDIATE unless LOCAL hides it; one set in
      GLOBAL unless either does. No other variable is seen differently. */
  lemma ScopesHide(st: Store, name: string, v: Value)
    ensures Get(Set(st, name, v, LOCAL), name) == Some(v)
    ensures Get(Set(st, name, v, INTERMEDIATE), name) == Some(if name in st.local then st.local[name] else v)
    ensures Get(Set(st, name, v, GLOBAL), name) ==
            Some(if name in st.local then st.local[name]
                 else if name in st.intermediate then st.intermediate[name]
                 else v)
    ensures forall scope, other | other != name :: Get(Set(st, name, v, scope), other) == Get(st, other)
    ensures forall other :: Exists(st, other) <==> Get(st, other).Some?
  {
  }

  function Converted(lib: Library, params: map<string, string>): Bindings {
    map k | k in params :: ConvertParam(lib, params[k])
  }

  function StoreFromParams(lib: Library, st: Store, params: map<string, string>, scope: Scope): Store {
    WithScope(st, scope, ScopeMap(st, scope) + Converted(lib, params))
  }

  // ----- snapshots -----

  const COUNTER_RANGE := 0x1_0000_0000

  /** `unsigned int`: the increment wraps around. */
  type Counter = n: int | 0 <= n < COUNTER_RANGE

  datatype Memory = Memory(store: Store, snapshots: map<string, Store>, counter: Counter)

  function SnapshotId(n: Counter): string {
    "snapshot_" + NatToString(n)
  }

  function Next(n: Counter): Counter {
    (n + 1) % COUNTER_RANGE
  }

  function CreateSnapshot(m: Memory): Memory {
    var n := Next(m.counter);
    m.(counter := n, snapshots := m.snapshots[SnapshotId(n) := m.store])
  }

  function RestoreSnapshot(m: Memory, id: string): Memory {
    if id in m.snapshots then m.(store := m.snapshots[id]) else m
  }

  /** Everything a client can do to the manager. */
  datatype Action =
    | SetVariable(name: string, value: Value, scope: Scope)
    | SetParams(params: map<string, string>, scope: Scope)
    | ClearScope(scope: Scope)
    | TakeSnapshot
    | Restore(id: string)

  function Act(lib: Library, m: Memory, a: Action): Memory {
    match a
    case SetVariable(name, v, scope) => m.(store := Set(m.store, name, v, scope))
    case SetParams(params, scope) => m.(store := StoreFromParams(lib, m.store, params, scope))
    case ClearScope(scope) => m.(store := WithScope(m.store, scope, map[]))
    case TakeSnapshot => CreateSnapshot(m)
    case Restore(id) => RestoreSnapshot(m, id)
  }

  function ActAll(lib: Library, m: Memory, actions: seq<Action>): Memory
    decreases |actions|
  {
    if actions == [] then m
    else ActAll(lib, Act(lib, m, actions[0]), actions[1..])
  }

  function SnapshotsIn(actions: seq<Action>): nat {
    if actions == [] then 0
    else (if actions[0].TakeSnapshot? then 1 else 0) + SnapshotsIn(actions[1..])
  }

  lemma SnapshotIdInjective(m: Counter, n: Counter)
    requires SnapshotId(m) == SnapshotId(n)
    ensures m == n
  {
    assert SnapshotId(m)[9..] == NatToString(m) && SnapshotId(n)[9..] == NatToString(n);
    NatToStringInjective(m, n);
  }

  lemma CounterDistance(origin: Counter, n: Counter, age: nat)
    requires n == (origin + age) % COUNTER_RANGE && age < COUNTER_RANGE
    ensures Next(n) == (origin + age + 1) % COUNTER_RANGE
    ensures Next(n) == origin <==> age + 1 == COUNTER_RANGE
  {
  }

  /** The entry of snapshot `origin`, taken `age` snapshots ago, outlives `actions` as long as
      the counter cannot come round to it again. */
  lemma {:induction false} EntrySurvives(lib: Library, m: Memory, origin: Counter, age: nat, actions: seq<Action>)
    requires m.counter == (origin + age) % COUNTER_RANGE
    requires SnapshotId(origin) in m.snapshots
    requires age + SnapshotsIn(actions) < COUNTER_RANGE
    ensures var last := ActAll(lib, m, actions);
      && SnapshotId(origin) in last.snapshots
      && last.snapshots[SnapshotId(origin)] == m.snapshots[SnapshotId(origin)]
      && last.counter == (origin + age + SnapshotsIn(actions)) % COUNTER_RANGE
    decreases |actions|
  {
    if actions != [] {
      var m1 := Act(lib, m, actions[0]);
      if actions[0].TakeSnapshot? {
        CounterDistance(origin, m.counter, age);
        if SnapshotId(Next(m.counter)) == SnapshotId(origin) {
          SnapshotIdInjective(Next(m.counter), origin);
        }
        EntrySurvives(lib, m1, origin, age + 1, actions[1..]);
      } else {
        EntrySurvives(lib, m1, origin, age, actions[1..]);
      }
    }
  }

  /** An id restores the three scopes as they were when it was returned, whatever happened
      since, provided fewer than 2^32 snapshots were taken in between. */
  lemma SnapshotRestores(lib: Library, m: Memory, actions: seq<Action>)
    requires SnapshotsIn(actions) < COUNTER_RANGE
    ensures var taken := CreateSnapshot(m);
      RestoreSnapshot(ActAll(lib, taken, actions), SnapshotId(taken.counter)).store == m.store
  {
    var taken := CreateSnapshot(m);
    EntrySurvives(lib, taken, taken.counter, 0, actions);
  }

  lemma WrapsLater(n: Counter, k: nat)
    ensures (Next(n) + k) % COUNTER_RANGE == (n + 1 + k) % COUNTER_RANGE
  {
  }

  lemma {:induction false} CounterCounts(lib: Library, m: Memory, actions: seq<Action>)
    ensures ActAll(lib, m, actions).counter == (m.counter + SnapshotsIn(actions)) % COUNTER_RANGE
    decreases |actions|
  {
    if actions != [] {
      CounterCounts(lib, Act(lib, m, actions[0]), actions[1..]);
      WrapsLater(m.counter, SnapshotsIn(actions[1..]));
    }
  }

  lemma {:induction false} ActAllConcat(lib: Library, m: Memory, a: seq<Action>, b: seq<Action>)
    ensures ActAll(lib, m, a + b) == ActAll(lib, ActAll(lib, m, a), b)
    decreases |a|
  {
    if a == [] {
      assert a + b == b;
    } else {
      assert (a + b)[1..] == a[1..] + b;
      ActAllConcat(lib, Act(lib, m, a[0]), a[1..], b);
    }
  }

  /** The place of the snapshot with `n` others before it. */
  lemma {:induction false} SplitAtSnapshot(actions: seq<Action>, n: nat)
    returns (before: seq<Action>, later: seq<Action>)
    requires n < SnapshotsIn(actions)
    ensures actions == before + ([TakeSnapshot] + later)
    ensures SnapshotsIn(before) == n && SnapshotsIn(later) == SnapshotsIn(actions) - n - 1
  {
    if n == 0 && actions[0].TakeSnapshot? {
      before, later := [], actions[1..];
    } else {
      before, later := SplitAtSnapshot(actions[1..], if actions[0].TakeSnapshot? then n - 1 else n);
      before := [actions[0]] + before;
      assert before[1..] + ([TakeSnapshot] + later) == actions[1..];
    }
  }

  lemma LastRound(n: nat)
    requires n >= COUNTER_RANGE
    ensures var last := n / COUNTER_RANGE * COUNTER_RANGE;
      0 < last <= n < last + COUNTER_RANGE && last % COUNTER_RANGE == 0
  {
  }

  lemma NextIsBack(origin: Counter, last: nat, n: Counter)
    requires last > 0 && last % COUNTER_RANGE == 0 && n == (origin + (last - 1)) % COUNTER_RANGE
    ensures Next(n) == origin
  {
  }

  /** From the 2^32-th later snapshot on, the id restores another state: the scopes as they were
      when the number of later snapshots last reached a multiple of 2^32. */
  lemma SnapshotOverwritten(lib: Library, m: Memory, actions: seq<Action>)
    returns (before: seq<Action>, later: seq<Action>)
    requires SnapshotsIn(actions) >= COUNTER_RANGE
    ensures actions == before + ([TakeSnapshot] + later)
    ensures SnapshotsIn(before) + 1 == SnapshotsIn(actions) / COUNTER_RANGE * COUNTER_RANGE
    ensures var taken := CreateSnapshot(m);
      RestoreSnapshot(ActAll(lib, taken, actions), SnapshotId(taken.counter)).store == ActAll(lib, taken, before).store
  {
    var taken := CreateSnapshot(m);
    var last := SnapshotsIn(actions) / COUNTER_RANGE * COUNTER_RANGE;
    LastRound(SnapshotsIn(actions));
    before, later := SplitAtSnapshot(actions, last - 1);
    var middle := ActAll(lib, taken, before);
    CounterCounts(lib, taken, before);
    NextIsBack(taken.counter, last, middle.counter);
    ActAllConcat(lib, taken, before, [TakeSnapshot] + later);
    assert ([TakeSnapshot] + later)[1..] == later;
    SnapshotRestores(lib, middle, later);
  }

  function Snapshots(n: nat): seq<Action> {
    if n == 0 then [] else [TakeSnapshot] + Snapshots(n - 1)
  }

  lemma {:induction false} SnapshotsCounted(n: nat)
    ensures SnapshotsIn(Snapshots(n)) == n
    ensures forall a | a in Snapshots(n) :: a == TakeSnapshot
  {
    if n > 0 {
      SnapshotsCounted(n - 1);
    }
  }

  lemma {:induction false} SnapshotsKeepStore(lib: Library, m: Memory, actions: seq<Action>)
    requires forall a | a in actions :: a == TakeSnapshot
    ensures ActAll(lib, m, actions).store == m.store
    decreases |actions|
  {
    if actions != [] {
      assert actions[0] in actions && forall a :: a in actions[1..] ==> a in actions;
      SnapshotsKeepStore(lib, CreateSnapshot(m), actions[1..]);
    }
  }

  /** 2^32 is the exact bound: an id restores the scopes of its creation after all histories with
      `n` later snapshots exactly when `n` is smaller. */
  lemma SnapshotBoundIsExact(lib: Library, m: Memory, n: nat)
    ensures var taken := CreateSnapshot(m);
      n < COUNTER_RANGE <==>
      forall actions | SnapshotsIn(actions) == n ::
        RestoreSnapshot(ActAll(lib, taken, actions), SnapshotId(taken.counter)).store == m.store
  {
    var taken := CreateSnapshot(m);
    if n < COUNTER_RANGE {
      forall actions | SnapshotsIn(actions) == n
        ensures RestoreSnapshot(ActAll(lib, taken, actions), SnapshotId(taken.counter)).store == m.store
      {
        SnapshotRestores(lib, m, actions);
      }
    } else {
      var change := if m.store.local == map[] then SetVariable("x", Bool(true), LOCAL) else ClearScope(LOCAL);
      assert "x" in Set(m.store, "x", Bool(true), LOCAL).local;
      assert Act(lib, taken, change).store.local != m.store.local;
      var actions := [change] + Snapshots(n);
      SnapshotsCounted(n);
      assert actions[1..] == Snapshots(n);
      var before, later := SnapshotOverwritten(lib, m, actions);
      FirstThenSnapshots(change, Snapshots(n), before, [TakeSnapshot] + later);
      SnapshotsKeepStore(lib, Act(lib, taken, change), before[1..]);
    }
  }

  lemma FirstThenSnapshots(first: Action, rest: seq<Action>, before: seq<Action>, later: seq<Action>)
    requires [first] + rest == before + later && SnapshotsIn(before) > 0
    requires forall a | a in rest :: a == TakeSnapshot
    ensures before != [] && before[0] == first && forall a | a in before[1..] :: a == TakeSnapshot
  {
    assert before[0] == (before + later)[0] && ([first] + rest)[0] == first;
    forall a | a in before[1..] ensures a == TakeSnapshot {
      var i :| 0 <= i < |before[1..]| && before[1..][i] == a;
      assert before[1..][i] == before[i + 1] == (before + later)[i + 1];
      assert ([first] + rest)[i + 1] == rest[i] && rest[i] in rest;
    }
  }

  /** The loop of `setFromParams` over the keys still to come. */
  function SetKeys(st: Store, values: Bindings, scope: Scope, keys: seq<string>): Store
    requires forall k | k in keys :: k in values
    decreases |keys|
  {
    if keys == [] then st
    else SetKeys(Set(st, keys[0], values[keys[0]], scope), values, scope, keys[1..])
  }

  function Overlay(m: Bindings, values: Bindings, keys: seq<string>): Bindings
    requires forall k | k in keys :: k in values
    decreases |keys|
  {
    if keys == [] then m else Overlay(m[keys[0] := values[keys[0]]], values, keys[1..])
  }

  lemma {:induction false} SetKeysOverlays(st: Store, values: Bindings, scope: Scope, keys: seq<string>)
    requires forall k | k in keys :: k in values
    ensures SetKeys(st, values, scope, keys) == WithScope(st, scope, Overlay(ScopeMap(st, scope), values, keys))
    decreases |keys|
  {
    if keys != [] {
      SetKeysOverlays(Set(st, keys[0], values[keys[0]], scope), values, scope, keys[1..]);
    }
  }

  lemma {:induction false} OverlayIsUnion(m: Bindings, values: Bindings, keys: seq<string>)
    requires forall k | k in keys :: k in values
    ensures Overlay(m, values, keys) == m + (map k | k in values && k in keys :: values[k])
    decreases |keys|
  {
    if keys != [] {
      OverlayIsUnion(m[keys[0] := values[keys[0]]], values, keys[1..]);
    }
  }

  lemma SetKeysIsStoreFromParams(lib: Library, st: Store, params: map<string, string>, scope: Scope)
    ensures SetKeys(st, Converted(lib, params), scope, SortedKeys(params.Keys)) ==
        StoreFromParams(lib, st, params, scope)
  {
    var keys, values := SortedKeys(params.Keys), Converted(lib, params);
    SetKeysOverlays(st, values, scope, keys);
    OverlayIsUnion(ScopeMap(st, scope), values, keys);
    assert (map k | k in values && k in keys :: values[k]) == values;
  }

  class VariableManager {
    const lib: Library
    var global: Bindings
    var local: Bindings
    var intermediate: Bindings
    var snapshots: map<string, Store>
    var counter: Counter

    constructor (lib: Library)
      ensures this.lib == lib
      ensures Contents() == Memory(Store(map[], map[], map[]), map[], 0)
    {
      this.lib := lib;
      global, local, intermediate, snapshots, counter := map[], map[], map[], map[], 0;
    }

    function Scopes(): Store
      reads this
    {
      Store(global, local, intermediate)
    }

    ghost function Contents(): Memory
      reads this
    {
      Memory(Scopes(), snapshots, counter)
    }

    method SetVariable(name: string, value: Value, scope: Scope)
      modifies this`global, this`local, this`intermediate
      ensures Scopes() == Set(old(Scopes()), name, value, scope)
    {
      match scope
      case GLOBAL => global := global[name := value];
      case LOCAL => local := local[name := value];
      case INTERMEDIATE => intermediate := intermediate[name := value];
    }

    method Clear(scope: Scope)
      modifies this`global, this`local, this`intermediate
      ensures Scopes() == WithScope(old(Scopes()), scope, map[])
    {
      match scope
      case GLOBAL => global := map[];
      case LOCAL => local := map[];
      case INTERMEDIATE => intermediate := map[];
    }

    method SetFromParams(params: map<string, string>, scope: Scope)
      modifies this`global, this`local, this`intermediate
      ensures Scopes() == StoreFromParams(lib, old(Scopes()), params, scope)
    {
      var keys := SortedKeys(params.Keys);
      ghost var st, values := Scopes(), Converted(lib, params);
      var i := 0;
      while i < |keys|
        invariant 0 <= i <= |keys|
        invariant SetKeys(Scopes(), values, scope, keys[i..]) == SetKeys(st, values, scope, keys)
      {
        SetVariable(keys[i], ConvertParam(lib, params[keys[i]]), scope);
        LeftBehind(keys, i);
        i := i + 1;
      }
      SetKeysIsStoreFromParams(lib, st, params, scope);
    }

    method TakeSnapshot() returns (id: string)
      modifies this`snapshots, this`counter
      ensures Contents() == Act(lib, old(Contents()), Action.TakeSnapshot)
      ensures id == SnapshotId(counter)
    {
      counter := (counter + 1) % COUNTER_RANGE;
      id := "snapshot_" + NatToString(counter);
      snapshots := snapshots[id := Scopes()];
    }

    method RestoreSnapshot(id: string) returns (found: bool)
      modifies this`global, this`local, this`intermediate
      ensures Contents() == Act(lib, old(Contents()), Restore(id))
      ensures found == (id in snapshots)
    {
      if id !in snapshots {
        return false;
      }
      var snapshot := snapshots[id];
      global := snapshot.global;
      local := snapshot.local;
      intermediate := snapshot.intermediate;
      return true;
    }
  }
}
