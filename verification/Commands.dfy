/** What each built-in command does, from the text that names it: which keys of which scope it
    changes, what it puts out, and its message (src/executor/generic_executor.cpp). */
module Commands {
  import opened Wrappers
  import opened Text
  import opened Values
  import opened Variables
  import opened ValueExpressions
  import opened Execution
  import N = NumericExpression

  // ----- commands that go through their parameters in key order -----

  /** The value of a key in a store. */
  type Evaluation = (Store, string) -> Result<Value, N.NumericError>

  function Earlier(out: Bindings, k: string): Bindings {
    map j | j in out && StrLess(j, k) :: out[j]
  }

  /** Every value in `out` is that of its key in the world that has the values of the keys before. */
  ghost predicate Consecutive(eval: Evaluation, put: Bindings -> World, out: Bindings) {
    forall k | k in out :: eval(put(Earlier(out, k)).store, k) == Ok(out[k])
  }

  /** A command that evaluates `keys` in order and puts each value before the next: it ends with all
      values, as `finish` says, or throws the error of the first key without one, with the values
      of the keys before put. */
  ghost predicate GoesThrough(eval: Evaluation, put: Bindings -> World, keys: set<string>,
                              finish: Bindings -> (Bindings, World), step: Step, out: Bindings)
  {
    && Consecutive(eval, put, out)
    && match step
       case Returned(result, after) =>
         && out.Keys == keys
         && result == ExecutionResult(true, NoNote, "", finish(out).0) && after == finish(out).1
       case Thrown(e, after) =>
         && after == put(out)
         && exists k :: k in keys && out.Keys == Before(keys, k) && eval(put(out).store, k) == Err(e)
  }

  function Before(keys: set<string>, k: string): set<string> {
    set j | j in keys && StrLess(j, k)
  }

  /** The loop of such a command. */
  function Walk(eval: Evaluation, deliver: (Store, string, Value) -> Store, keys: seq<string>, outputs: Bindings,
                w: World): Step
    decreases |keys|
  {
    if keys == [] then Returned(Success(NoNote, outputs), w)
    else
      match eval(w.store, keys[0])
      case Err(e) => Thrown(e, w)
      case Ok(v) => Walk(eval, deliver, keys[1..], outputs[keys[0] := v], w.(store := deliver(w.store, keys[0], v)))
  }

  /** Putting one more value, of a later key, is delivering it. */
  ghost predicate Puts(put: Bindings -> World, deliver: (Store, string, Value) -> Store, keys: set<string>) {
    forall b, k, v | k in keys && (forall j | j in b :: StrLess(j, k)) ::
      put(b[k := v]) == put(b).(store := deliver(put(b).store, k, v))
  }

  /** All keys in `done` come before those still to come. */
  predicate Behind(done: Bindings, keys: seq<string>) {
    forall j, k | j in done && k in keys :: StrLess(j, k)
  }

  function Same(put: Bindings -> World): Bindings -> (Bindings, World) {
    (b: Bindings) => (b, put(b))
  }

  lemma ConsecutiveOneMore(eval: Evaluation, put: Bindings -> World, done: Bindings, k: string, v: Value)
    requires Consecutive(eval, put, done) && (forall j | j in done :: StrLess(j, k))
    requires eval(put(done).store, k) == Ok(v)
    ensures Consecutive(eval, put, done[k := v])
  {
    var more := done[k := v];
    StrTrichotomy(k, k);
    assert Earlier(more, k) == done;
    forall j | j in done ensures Earlier(more, j) == Earlier(done, j) {
      StrTrichotomy(j, k);
    }
  }

  lemma KeysBefore(done: Bindings, keys: seq<string>, all: set<string>)
    requires Ascending(keys) && keys != [] && Behind(done, keys)
    requires forall k :: k in all <==> k in done || k in keys
    ensures done.Keys == Before(all, keys[0])
  {
    assert keys[0] in keys;
    forall k | k in keys ensures !StrLess(k, keys[0]) {
      var i :| 0 <= i < |keys| && keys[i] == k;
      StrTrichotomy(keys[0], k);
    }
  }

  lemma BehindOneMore(done: Bindings, keys: seq<string>, v: Value)
    requires Ascending(keys) && keys != [] && Behind(done, keys)
    ensures Behind(done[keys[0] := v], keys[1..]) && Ascending(keys[1..])
    ensures forall j | j in done :: StrLess(j, keys[0])
    ensures forall k :: k in done[keys[0] := v] || k in keys[1..] <==> k in done || k in keys
  {
    assert keys == [keys[0]] + keys[1..] && keys[0] in keys;
    forall k | k in keys[1..] ensures StrLess(keys[0], k) && k in keys {
      var i :| 0 <= i < |keys[1..]| && keys[1..][i] == k;
      assert keys[i + 1] == k;
    }
  }

  lemma {:induction false} WalkGoesThrough(eval: Evaluation, deliver: (Store, string, Value) -> Store,
                                           put: Bindings -> World, keys: seq<string>, all: set<string>, done: Bindings)
    returns (out: Bindings)
    requires Puts(put, deliver, all) && Ascending(keys) && Behind(done, keys) && Consecutive(eval, put, done)
    requires forall k :: k in all <==> k in done || k in keys
    ensures GoesThrough(eval, put, all, Same(put), Walk(eval, deliver, keys, done, put(done)), out)
    decreases |keys|
  {
    out := done;
    if keys != [] {
      var k, e := keys[0], eval(put(done).store, keys[0]);
      KeysBefore(done, keys, all);
      assert k in all;
      if e.Ok? {
        BehindOneMore(done, keys, e.value);
        ConsecutiveOneMore(eval, put, done, k, e.value);
        assert put(done[k := e.value]) == put(done).(store := deliver(put(done).store, k, e.value));
        out := WalkGoesThrough(eval, deliver, put, keys[1..], all, done[k := e.value]);
      }
    }
  }

  /** The value of a parameter. */
  function Param(lib: Library, params: map<string, string>): Evaluation {
    (st: Store, k: string) => if k in params then EvalValue(lib, st, params[k]) else Ok(Unknown)
  }

  lemma {:induction false} ParamLoopWalks(lib: Library, sink: Sink, params: map<string, string>, keys: seq<string>,
                                          deliver: (Store, string, Value) -> Store, outputs: Bindings, w: World)
    requires forall k | k in keys :: k in params
    requires forall st, k, v :: deliver(st, k, v) == Deliver(sink, st, k, v)
    ensures ParamLoop(lib, sink, params, keys, outputs, w) == Walk(Param(lib, params), deliver, keys, outputs, w)
    decreases |keys|
  {
    if keys != [] {
      var k, e := keys[0], EvalValue(lib, w.store, params[keys[0]]);
      assert Param(lib, params)(w.store, k) == e;
      if e.Ok? {
        ParamLoopWalks(lib, sink, params, keys[1..], deliver, outputs[k := e.value],
                       w.(store := Deliver(sink, w.store, k, e.value)));
      }
    }
  }

  lemma LoopGoesThrough(lib: Library, sink: Sink, params: map<string, string>, put: Bindings -> World)
    returns (out: Bindings)
    requires Puts(put, Delivering(sink), params.Keys)
    ensures GoesThrough(Param(lib, params), put, params.Keys, Same(put),
                        ParamLoop(lib, sink, params, SortedKeys(params.Keys), map[], put(map[])), out)
  {
    var keys := SortedKeys(params.Keys);
    SortedKeysAscending(params.Keys);
    ParamLoopWalks(lib, sink, params, keys, Delivering(sink), map[], put(map[]));
    out := WalkGoesThrough(Param(lib, params), Delivering(sink), put, keys, params.Keys, map[]);
  }

  // ----- the texts that name a command -----

  /** The character in upper case. */
  predicate IsUpper(c: char, upper: char) {
    if 'a' <= c <= 'z' then upper as int == c as int - 32 else upper == c
  }

  /** A name in any case, with any blanks around it. */
  lemma SaysInAnyCase(left: string, text: string, right: string, name: string)
    requires Blank(left) && Blank(right) && text != "" && !IsSpace(text[0]) && !IsSpace(text[|text| - 1])
    requires |text| == |name| && forall i | 0 <= i < |text| :: IsUpper(text[i], name[i])
    ensures Says(left + text + right, name)
  {
    TrimmedBetween(left, text, right);
    assert ToUpper(text) == name;
  }

  // ----- ASSIGN, EMIT_COMMAND, REPORT_TARGET, SEND -----

  /** Putting values in LOCAL, in INTERMEDIATE, under their report names in GLOBAL, and nowhere. */
  function IntoLocal(w: World): Bindings -> World {
    (b: Bindings) => w.(store := w.store.(local := w.store.local + b))
  }

  function IntoIntermediate(w: World): Bindings -> World {
    (b: Bindings) => w.(store := w.store.(intermediate := w.store.intermediate + b))
  }

  function IntoReport(w: World): Bindings -> World {
    (b: Bindings) => w.(store := w.store.(global := w.store.global + Reported(b)))
  }

  function IntoNothing(w: World): Bindings -> World {
    (b: Bindings) => w
  }

  function Delivering(sink: Sink): (Store, string, Value) -> Store {
    (st: Store, k: string, v: Value) => Deliver(sink, st, k, v)
  }

  lemma UnionUpdate(g: Bindings, r: Bindings, k: string, v: Value)
    ensures g + r[k := v] == (g + r)[k := v]
  {
  }

  lemma NothingPut(g: Bindings)
    ensures g + map[] == g
  {
  }

  lemma LocalPuts(w: World, keys: set<string>)
    ensures Puts(IntoLocal(w), Delivering(ToLocal), keys) && IntoLocal(w)(map[]) == w
  {
    NothingPut(w.store.local);
    var put, deliver := IntoLocal(w), Delivering(ToLocal);
    forall b, k, v | k in keys && forall j | j in b :: StrLess(j, k)
      ensures put(b[k := v]) == put(b).(store := deliver(put(b).store, k, v))
    {
      UnionUpdate(w.store.local, b, k, v);
    }
  }

  lemma IntermediatePuts(w: World, keys: set<string>)
    ensures Puts(IntoIntermediate(w), Delivering(ToIntermediate), keys) && IntoIntermediate(w)(map[]) == w
  {
    NothingPut(w.store.intermediate);
    var put, deliver := IntoIntermediate(w), Delivering(ToIntermediate);
    forall b, k, v | k in keys && forall j | j in b :: StrLess(j, k)
      ensures put(b[k := v]) == put(b).(store := deliver(put(b).store, k, v))
    {
      UnionUpdate(w.store.intermediate, b, k, v);
    }
  }

  lemma RunsVerb(lib: Library, command: string, params: map<string, string>, w: World, name: string)
    requires Says(command, name) && name != ""
    ensures ExecCommand(lib, command, params, w) == ExecVerb(lib, VerbOf(name), command, params, w)
  {
    assert ToUpper("") == "";
  }

  lemma AssignRuns(lib: Library, command: string, params: map<string, string>, w: World)
    requires Says(command, "ASSIGN")
    ensures ExecCommand(lib, command, params, w) ==
            ParamLoop(lib, ToLocal, params, SortedKeys(params.Keys), map[], w)
  {
    RunsVerb(lib, command, params, w, "ASSIGN");
  }

  lemma EmitRuns(lib: Library, command: string, params: map<string, string>, w: World)
    requires Says(command, "EMIT_COMMAND")
    ensures ExecCommand(lib, command, params, w) ==
            ParamLoop(lib, ToIntermediate, params, SortedKeys(params.Keys), map[], w)
  {
    RunsVerb(lib, command, params, w, "EMIT_COMMAND");
  }

  lemma ReportRuns(lib: Library, command: string, params: map<string, string>, w: World)
    requires Says(command, "REPORT_TARGET")
    ensures ExecCommand(lib, command, params, w) ==
            ParamLoop(lib, ToReport, params, SortedKeys(params.Keys), map[], Flagged(w, "target_reported", GLOBAL))
  {
    RunsVerb(lib, command, params, w, "REPORT_TARGET");
  }

  lemma SendRuns(lib: Library, command: string, params: map<string, string>, w: World)
    requires Says(command, "SEND")
    ensures ExecCommand(lib, command, params, w) ==
            Posted(ParamLoop(lib, ToPacket, params, SortedKeys(params.Keys), map[], w))
  {
    RunsVerb(lib, command, params, w, "SEND");
  }

  /** ASSIGN stores its values in LOCAL. */
  lemma AssignMeans(lib: Library, command: string, params: map<string, string>, w: World) returns (out: Bindings)
    requires Says(command, "ASSIGN")
    ensures GoesThrough(Param(lib, params), IntoLocal(w), params.Keys, Same(IntoLocal(w)),
                        ExecCommand(lib, command, params, w), out)
  {
    LocalPuts(w, params.Keys);
    AssignRuns(lib, command, params, w);
    out := LoopGoesThrough(lib, ToLocal, params, IntoLocal(w));
  }

  /** EMIT_COMMAND stores them in INTERMEDIATE, and nothing elsewhere. */
  lemma EmitMeans(lib: Library, command: string, params: map<string, string>, w: World) returns (out: Bindings)
    requires Says(command, "EMIT_COMMAND")
    ensures GoesThrough(Param(lib, params), IntoIntermediate(w), params.Keys, Same(IntoIntermediate(w)),
                        ExecCommand(lib, command, params, w), out)
  {
    IntermediatePuts(w, params.Keys);
    EmitRuns(lib, command, params, w);
    out := LoopGoesThrough(lib, ToIntermediate, params, IntoIntermediate(w));
  }

  function ReportName(k: string): string {
    "reported_" + k
  }

  lemma ReportNames(j: string)
    ensures ReportName(j)[9..] == j && ReportName(j) != "target_reported"
  {
    assert ReportName(j)[0] == 'r';
  }

  predicate IsReport(n: string, b: Bindings) {
    |n| >= 9 && n == ReportName(n[9..]) && n[9..] in b
  }

  /** What REPORT_TARGET adds to GLOBAL. */
  function Reported(b: Bindings): Bindings {
    (map n | n in (set k | k in b :: ReportName(k)) && IsReport(n, b) :: b[n[9..]])["target_reported" := Bool(true)]
  }

  lemma ReportedAt(b: Bindings, n: string)
    ensures n in Reported(b) <==> n == "target_reported" || IsReport(n, b)
    ensures IsReport(n, b) ==> n != "target_reported" && Reported(b)[n] == b[n[9..]]
    ensures Reported(b)["target_reported"] == Bool(true)
  {
    if IsReport(n, b) {
      ReportNames(n[9..]);
    }
  }

  lemma IsReportOneMore(n: string, b: Bindings, k: string, v: Value)
    ensures IsReport(n, b[k := v]) <==> IsReport(n, b) || n == ReportName(k)
    ensures IsReport(n, b[k := v]) ==> b[k := v][n[9..]] == if n == ReportName(k) then v else b[n[9..]]
  {
    ReportNames(k);
  }

  lemma ReportedOneMore(b: Bindings, k: string, v: Value)
    ensures Reported(b[k := v]) == Reported(b)[ReportName(k) := v]
  {
    var left, right := Reported(b[k := v]), Reported(b)[ReportName(k) := v];
    forall n ensures (n in left <==> n in right) && (n in left ==> left[n] == right[n]) {
      ReportedAt(b, n);
      ReportedAt(b[k := v], n);
      IsReportOneMore(n, b, k, v);
      ReportNames(k);
    }
  }

  lemma ReportStored(st: Store, b: Bindings, k: string, v: Value)
    ensures st.(global := st.global + Reported(b[k := v])) ==
            Set(st.(global := st.global + Reported(b)), ReportName(k), v, GLOBAL)
  {
    ReportedOneMore(b, k, v);
    UnionUpdate(st.global, Reported(b), ReportName(k), v);
  }

  lemma ReportPutOne(w: World, b: Bindings, k: string, v: Value)
    ensures var now := IntoReport(w)(b);
      IntoReport(w)(b[k := v]) == now.(store := Delivering(ToReport)(now.store, k, v))
  {
    ReportStored(w.store, b, k, v);
  }

  lemma ReportPuts(w: World, keys: set<string>)
    ensures Puts(IntoReport(w), Delivering(ToReport), keys)
  {
    forall b, k, v | k in keys && forall j | j in b :: StrLess(j, k)
      ensures var now := IntoReport(w)(b);
        IntoReport(w)(b[k := v]) == now.(store := Delivering(ToReport)(now.store, k, v))
    {
      ReportPutOne(w, b, k, v);
    }
  }

  lemma NothingReported(w: World)
    ensures IntoReport(w)(map[]) == Flagged(w, "target_reported", GLOBAL)
  {
    assert Reported(map[]) == map["target_reported" := Bool(true)];
    UnionUpdate(w.store.global, map[], "target_reported", Bool(true));
    NothingPut(w.store.global);
  }

  /** REPORT_TARGET sets `target_reported`, and then `reported_k` for each key k, in GLOBAL. */
  lemma ReportMeans(lib: Library, command: string, params: map<string, string>, w: World) returns (out: Bindings)
    requires Says(command, "REPORT_TARGET")
    ensures GoesThrough(Param(lib, params), IntoReport(w), params.Keys, Same(IntoReport(w)),
                        ExecCommand(lib, command, params, w), out)
  {
    ReportPuts(w, params.Keys);
    NothingReported(w);
    ReportRuns(lib, command, params, w);
    out := LoopGoesThrough(lib, ToReport, params, IntoReport(w));
  }

  lemma NothingPuts(w: World, keys: set<string>)
    ensures Puts(IntoNothing(w), Delivering(ToPacket), keys)
  {
  }

  /** SEND changes no variable; it posts all values when it has them. */
  lemma SendMeans(lib: Library, command: string, params: map<string, string>, w: World) returns (out: Bindings)
    requires Says(command, "SEND")
    ensures GoesThrough(Param(lib, params), IntoNothing(w), params.Keys, (b: Bindings) => (b, w.(mailbox := b)),
                        ExecCommand(lib, command, params, w), out)
  {
    NothingPuts(w, params.Keys);
    SendRuns(lib, command, params, w);
    out := LoopGoesThrough(lib, ToPacket, params, IntoNothing(w));
  }

  // ----- MOVE_TO -----

  function Sensor(axis: string): string {
    if axis == "x" then "POS_X" else if axis == "y" then "POS_Y" else "POS_Z"
  }

  /** Where the position sensors are put. */
  function Positions(b: Bindings): Bindings {
    (if "x" in b then map["POS_X" := b["x"]] else map[]) +
    (if "y" in b then map["POS_Y" := b["y"]] else map[]) +
    (if "z" in b then map["POS_Z" := b["z"]] else map[])
  }

  lemma {:induction false} MoveLoopWalks(lib: Library, params: map<string, string>, axes: seq<(string, string)>,
                                         deliver: (Store, string, Value) -> Store, outputs: Bindings, w: World)
    returns (keys: seq<string>)
    requires forall a | a in axes :: a.1 == Sensor(a.0)
    requires forall st, k, v :: deliver(st, k, v) == Set(Set(st, k, v, LOCAL), Sensor(k), v, GLOBAL)
    ensures keys == Named(axes, params)
    ensures MoveLoop(lib, params, axes, outputs, w) == Walk(Param(lib, params), deliver, keys, outputs, w)
    decreases |axes|
  {
    keys := Named(axes, params);
    if axes != [] {
      var (axis, sensor) := axes[0];
      assert axes[0] in axes;
      if axis !in params {
        keys := MoveLoopWalks(lib, params, axes[1..], deliver, outputs, w);
      } else {
        var e := EvalValue(lib, w.store, params[axis]);
        assert Param(lib, params)(w.store, axis) == e && keys[1..] == Named(axes[1..], params);
        if e.Ok? {
          var st := Set(Set(w.store, axis, e.value, LOCAL), sensor, e.value, GLOBAL);
          var _ := MoveLoopWalks(lib, params, axes[1..], deliver, outputs[axis := e.value], w.(store := st));
        }
      }
    }
  }

  /** The axes among the parameters. */
  function Named(axes: seq<(string, string)>, params: map<string, string>): seq<string> {
    if axes == [] then []
    else (if axes[0].0 in params then [axes[0].0] else []) + Named(axes[1..], params)
  }

  function Optional(k: string, present: bool): seq<string> {
    if present then [k] else []
  }

  lemma AxesAscend(params: map<string, string>)
    ensures var keys := Named(Axes(), params);
      Ascending(keys) && forall k :: k in keys <==> k in params.Keys * {"x", "y", "z"}
    ensures forall a | a in Axes() :: a.1 == Sensor(a.0)
  {
    var axes, keys := Axes(), Named(Axes(), params);
    assert axes[1..] == [axes[1], axes[2]] && axes[1..][1..] == [axes[2]] && axes[1..][1..][1..] == [];
    assert Named(axes[1..][1..][1..], params) == [];
    assert Named(axes[1..][1..], params) == Optional("z", "z" in params);
    assert Named(axes[1..], params) == Optional("y", "y" in params) + Optional("z", "z" in params);
    ThreeAscend("x" in params, "y" in params, "z" in params);
  }

  lemma ThreeAscend(x: bool, y: bool, z: bool)
    ensures Ascending(Optional("x", x) + (Optional("y", y) + Optional("z", z)))
    ensures forall k :: k in Optional("x", x) + (Optional("y", y) + Optional("z", z)) <==>
                        (k == "x" && x) || (k == "y" && y) || (k == "z" && z)
  {
    assert StrLess("x", "y") && StrLess("y", "z") && StrLess("x", "z");
  }

  lemma PositionsOneMore(b: Bindings, k: string, v: Value)
    requires k == "x" || k == "y" || k == "z"
    ensures Positions(b[k := v]) == Positions(b)[Sensor(k) := v]
  {
  }

  function IntoAxes(w: World): Bindings -> World {
    (b: Bindings) => w.(store := w.store.(local := w.store.local + b, global := w.store.global + Positions(b)))
  }

  function Moving(): (Store, string, Value) -> Store {
    (st: Store, k: string, v: Value) => Set(Set(st, k, v, LOCAL), Sensor(k), v, GLOBAL)
  }

  lemma MovedOneMore(st: Store, b: Bindings, k: string, v: Value)
    requires k == "x" || k == "y" || k == "z"
    ensures st.(local := st.local + b[k := v], global := st.global + Positions(b[k := v])) ==
            Set(Set(st.(local := st.local + b, global := st.global + Positions(b)), k, v, LOCAL), Sensor(k), v, GLOBAL)
  {
    PositionsOneMore(b, k, v);
    UnionUpdate(st.local, b, k, v);
    UnionUpdate(st.global, Positions(b), Sensor(k), v);
  }

  lemma MovePuts(w: World, keys: set<string>)
    requires keys <= {"x", "y", "z"}
    ensures Puts(IntoAxes(w), Moving(), keys) && IntoAxes(w)(map[]) == w
  {
    NothingPut(w.store.local);
    NothingPut(w.store.global);
    var put, deliver := IntoAxes(w), Moving();
    forall b, k, v | k in keys && forall j | j in b :: StrLess(j, k)
      ensures put(b[k := v]) == put(b).(store := deliver(put(b).store, k, v))
    {
      MovedOneMore(w.store, b, k, v);
    }
  }

  lemma MoveRuns(lib: Library, command: string, params: map<string, string>, w: World)
    requires Says(command, "MOVE_TO")
    ensures ExecCommand(lib, command, params, w) == MoveLoop(lib, params, Axes(), map[], w)
  {
    RunsVerb(lib, command, params, w, "MOVE_TO");
  }

  /** MOVE_TO evaluates x, y and z, those it has, in this order, and stores each in LOCAL under its
      name and in GLOBAL under its position sensor. */
  lemma MoveMeans(lib: Library, command: string, params: map<string, string>, w: World) returns (out: Bindings)
    requires Says(command, "MOVE_TO")
    ensures GoesThrough(Param(lib, params), IntoAxes(w), params.Keys * {"x", "y", "z"}, Same(IntoAxes(w)),
                        ExecCommand(lib, command, params, w), out)
  {
    var all := params.Keys * {"x", "y", "z"};
    AxesAscend(params);
    MovePuts(w, all);
    MoveRuns(lib, command, params, w);
    var keys := MoveLoopWalks(lib, params, Axes(), Moving(), map[], w);
    out := WalkGoesThrough(Param(lib, params), Moving(), IntoAxes(w), keys, all, map[]);
  }

  // ----- RECEIVE -----

  /** The mailbox as RECEIVE finds it: another executor's packet, if one was stored over it. */
  function Found(w: World): Bindings {
    if w.feed != [] && w.feed[0].Some? then w.feed[0].value else w.mailbox
  }

  /** A key of the packet has the sender's value, any other the value of its expression. */
  function Received(lib: Library, packet: Bindings, params: map<string, string>): Evaluation {
    (st: Store, k: string) => if k in packet then Ok(packet[k]) else Param(lib, params)(st, k)
  }

  function IntoRead(w: World): Bindings -> World {
    (b: Bindings) => w.(mailbox := Found(w), feed := if w.feed == [] then [] else w.feed[1..],
                        store := w.store.(local := w.store.local + b))
  }

  /** What `result_to` names is set to whether there was a packet. */
  function Noted(w: World, params: map<string, string>): Bindings -> (Bindings, World) {
    (b: Bindings) =>
      var target := if "result_to" in params then Trimmed(params["result_to"]) else "";
      var all := if target == "" then b else b[target := Bool(Found(w) != map[])];
      (all, IntoRead(w)(all))
  }

  function WithoutFlag(keys: seq<string>): seq<string> {
    if keys == [] then [] else (if keys[0] == "result_to" then [] else [keys[0]]) + WithoutFlag(keys[1..])
  }

  lemma {:induction false} WithoutFlagAscends(keys: seq<string>)
    requires Ascending(keys)
    ensures Ascending(WithoutFlag(keys))
    ensures forall k :: k in WithoutFlag(keys) <==> k in keys && k != "result_to"
  {
    if keys != [] {
      var none: Bindings := map[];
      BehindOneMore(none, keys, Unknown);
      WithoutFlagAscends(keys[1..]);
    }
  }

  lemma {:induction false} ReceiveLoopWalks(lib: Library, packet: Bindings, params: map<string, string>,
                                            keys: seq<string>, outputs: Bindings, w: World)
    requires forall k | k in keys :: k in params
    ensures ReceiveLoop(lib, packet, params, keys, outputs, w) ==
            Walk(Received(lib, packet, params), Delivering(ToLocal), WithoutFlag(keys), outputs, w)
    decreases |keys|
  {
    if keys != [] {
      var k := keys[0];
      if k == "result_to" {
        assert WithoutFlag(keys) == WithoutFlag(keys[1..]);
        ReceiveLoopWalks(lib, packet, params, keys[1..], outputs, w);
      } else {
        var e := if k in packet then Ok(packet[k]) else EvalValue(lib, w.store, params[k]);
        assert Param(lib, params)(w.store, k) == EvalValue(lib, w.store, params[k]);
        assert Received(lib, packet, params)(w.store, k) == e;
        assert WithoutFlag(keys)[1..] == WithoutFlag(keys[1..]);
        if e.Ok? {
          ReceiveLoopWalks(lib, packet, params, keys[1..], outputs[k := e.value],
                           w.(store := Set(w.store, k, e.value, LOCAL)));
        }
      }
    }
  }

  lemma ReadPuts(w: World, keys: set<string>)
    ensures Puts(IntoRead(w), Delivering(ToLocal), keys) && IntoRead(w)(map[]) == MailboxRead(w)
  {
    NothingPut(w.store.local);
    var put, deliver := IntoRead(w), Delivering(ToLocal);
    forall b, k, v | k in keys && forall j | j in b :: StrLess(j, k)
      ensures put(b[k := v]) == put(b).(store := deliver(put(b).store, k, v))
    {
      UnionUpdate(w.store.local, b, k, v);
    }
  }

  lemma ReceiveRuns(lib: Library, command: string, params: map<string, string>, w: World)
    requires Says(command, "RECEIVE")
    ensures ExecCommand(lib, command, params, w) ==
            ReceiveFlag(Found(w), params,
                        ReceiveLoop(lib, Found(w), params, SortedKeys(params.Keys), map[], MailboxRead(w)))
  {
    RunsVerb(lib, command, params, w, "RECEIVE");
  }

  lemma FlagNoted(w: World, params: map<string, string>, step: Step, eval: Evaluation, keys: set<string>, out: Bindings)
    requires GoesThrough(eval, IntoRead(w), keys, Same(IntoRead(w)), step, out)
    ensures GoesThrough(eval, IntoRead(w), keys, Noted(w, params), ReceiveFlag(Found(w), params, step), out)
  {
    var target := if "result_to" in params then Trimmed(params["result_to"]) else "";
    if step.Returned? {
      UnionUpdate(w.store.local, out, target, Bool(Found(w) != map[]));
    }
  }

  /** RECEIVE reads the mailbox once; for each key but `result_to` it stores, in LOCAL, the packet's
      value or the value of its own expression, and then notes whether there was a packet. */
  lemma ReceiveMeans(lib: Library, command: string, params: map<string, string>, w: World) returns (out: Bindings)
    requires Says(command, "RECEIVE")
    ensures GoesThrough(Received(lib, Found(w), params), IntoRead(w), params.Keys - {"result_to"}, Noted(w, params),
                        ExecCommand(lib, command, params, w), out)
  {
    var eval, keys, all := Received(lib, Found(w), params), SortedKeys(params.Keys), params.Keys - {"result_to"};
    SortedKeysAscending(params.Keys);
    WithoutFlagAscends(keys);
    ReadPuts(w, all);
    ReceiveRuns(lib, command, params, w);
    ReceiveLoopWalks(lib, Found(w), params, keys, map[], MailboxRead(w));
    out := WalkGoesThrough(eval, Delivering(ToLocal), IntoRead(w), WithoutFlag(keys), all, map[]);
    FlagNoted(w, params, ReceiveLoop(lib, Found(w), params, keys, map[], MailboxRead(w)), eval, all, out);
  }

  // ----- commands that evaluate nothing -----

  lemma ExitMeans(lib: Library, command: string, params: map<string, string>, w: World)
    requires Says(command, "EXIT")
    ensures ExecCommand(lib, command, params, w) ==
            Returned(ExecutionResult(true, Tag("EXIT"), "", map[]),
                     w.(store := w.store.(global := w.store.global["mission_exit" := Bool(true)])))
  {
    RunsVerb(lib, command, params, w, "EXIT");
  }

  lemma NextTaskMeans(lib: Library, command: string, params: map<string, string>, w: World)
    requires Says(command, "NEXT_TASK")
    ensures ExecCommand(lib, command, params, w) ==
            Returned(ExecutionResult(true, Tag("NEXT_TASK"), "", map[]),
                     w.(store := w.store.(local := w.store.local["next_task" := Bool(true)])))
  {
    RunsVerb(lib, command, params, w, "NEXT_TASK");
  }

  lemma NoOpMeans(lib: Library, command: string, params: map<string, string>, w: World)
    requires Says(command, "NO_OP")
    ensures ExecCommand(lib, command, params, w) == Returned(ExecutionResult(true, Tag("NO_OP"), "", map[]), w)
  {
    RunsVerb(lib, command, params, w, "NO_OP");
  }

  /** The empty command succeeds; blanks alone are no command. */
  lemma EmptyMeans(lib: Library, params: map<string, string>, w: World)
    ensures ExecCommand(lib, "", params, w) == Returned(ExecutionResult(true, NoNote, "", map[]), w)
  {
  }

  /** The names of all commands but SETVAR. */
  predicate IsNamed(name: string) {
    || name == "NO_OP" || name == "ASSIGN" || name == "MOVE_TO" || name == "SEND" || name == "RECEIVE"
    || name == "EMIT_COMMAND" || name == "NEXT_TASK" || name == "REPORT_TARGET" || name == "EXIT"
  }

  /** Any other text fails and changes nothing. */
  lemma UnsupportedMeans(lib: Library, command: string, params: map<string, string>, w: World)
    requires command != "" && !IsNamed(ToUpper(Trimmed(command))) && !Contains(ToUpper(Trimmed(command)), "SETVAR")
    ensures ExecCommand(lib, command, params, w) ==
            Returned(ExecutionResult(false, UnsupportedCommand(command), "", map[]), w)
  {
  }

  // ----- SETVAR -----

  /** SETVAR, six characters, a name, the first equals sign, an expression: the expression's value
      is stored in GLOBAL under the trimmed name. */
  lemma SetvarMeans(lib: Library, head: string, name: string, expression: string, params: map<string, string>, w: World)
    requires |head| == 6 && '=' !in head && '=' !in name && name != ""
    requires IsSetvar(head + name + ['='] + expression)
    ensures var step := ExecCommand(lib, head + name + ['='] + expression, params, w);
      var target := Trimmed(name);
      if target == "" then step == Returned(ExecutionResult(false, SetvarWithoutName, "", map[]), w)
      else
        match EvalValue(lib, w.store, Trimmed(expression))
        case Err(e) => step == Thrown(e, w)
        case Ok(v) =>
          step == Returned(ExecutionResult(true, NoNote, "", map[target := v]),
                           w.(store := w.store.(global := w.store.global[target := v])))
  {
    var command := head + name + ['='] + expression;
    SetvarSplits(head, name, expression);
    SetvarRuns(lib, command, params, w);
  }

  /** A command that holds SETVAR anywhere and is none of the others is one. */
  predicate IsSetvar(command: string) {
    Contains(ToUpper(Trimmed(command)), "SETVAR") && !IsNamed(ToUpper(Trimmed(command)))
  }

  lemma SetvarNamed(name: string)
    requires Contains(name, "SETVAR") && !IsNamed(name)
    ensures VerbOf(name) == SetVar && name != ""
  {
  }

  lemma SetvarRuns(lib: Library, command: string, params: map<string, string>, w: World)
    requires IsSetvar(command)
    ensures ExecCommand(lib, command, params, w) == Setvar(lib, command, w)
  {
    SetvarNamed(ToUpper(Trimmed(command)));
    RunsVerb(lib, command, params, w, ToUpper(Trimmed(command)));
  }

  lemma SetvarSplits(head: string, name: string, expression: string)
    requires |head| == 6 && '=' !in head && '=' !in name && name != ""
    ensures SetvarParts(head + name + ['='] + expression) == Some((Trimmed(name), Trimmed(expression)))
  {
    var command := head + name + ['='] + expression;
    forall i | 0 <= i < 6 + |name| ensures command[i] != '=' {
      assert i < 6 ==> command[i] == head[i];
      assert i >= 6 ==> command[i] == name[i - 6];
    }
    IndexOfUnique(command, '=', 6 + |name|);
    assert command[6..6 + |name|] == name && command[6 + |name| + 1..] == expression;
  }

  /** Without an equals sign, or with one too near the beginning, it fails and changes nothing. */
  lemma SetvarMalformedMeans(lib: Library, command: string, params: map<string, string>, w: World)
    requires IsSetvar(command)
    requires forall i | 6 < i < |command| :: command[i] == '=' ==> exists j | 0 <= j <= 6 :: command[j] == '='
    ensures ExecCommand(lib, command, params, w) ==
            Returned(ExecutionResult(false, SetvarMalformed(command), "", map[]), w)
  {
    SetvarRuns(lib, command, params, w);
    IndexOfFirst(command, '=');
  }
}
