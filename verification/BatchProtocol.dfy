/** Batches of tasks, their acknowledgements and the coordinator's tally
    (src/coordinator/coordinator.cpp, src/executor/satellite_simulator.cpp). */
module BatchProtocol {
  import opened Wrappers
  import opened Text

  type TaskId = string

  /** `BatchTaskAssignAck`. */
  datatype Ack = Ack(messageId: string, satellite: string, accepted: bool,
                     acceptedIds: seq<TaskId>, rejectedIds: seq<TaskId>, reasons: map<string, Reason>)

  datatype Reason = InvalidPayload | ExecutionFailed

  // ----- the satellite's answer to a batch -----

  predicate AllOk(outcomes: seq<bool>) {
    forall i :: 0 <= i < |outcomes| ==> outcomes[i]
  }

  /** The tasks with the given outcome, in batch order. */
  function With(tasks: seq<TaskId>, outcomes: seq<bool>, outcome: bool): seq<TaskId>
    requires |tasks| == |outcomes|
  {
    if tasks == [] then []
    else
      var n := |tasks| - 1;
      With(tasks[..n], outcomes[..n], outcome) + if outcomes[n] == outcome then [tasks[n]] else []
  }

  lemma WithOneMore(tasks: seq<TaskId>, outcomes: seq<bool>, task: TaskId, ok: bool, outcome: bool)
    requires |tasks| == |outcomes|
    ensures With(tasks + [task], outcomes + [ok], outcome) ==
            With(tasks, outcomes, outcome) + if ok == outcome then [task] else []
  {
    assert (tasks + [task])[..|tasks|] == tasks && (outcomes + [ok])[..|tasks|] == outcomes;
  }

  function Reasons(rejected: seq<TaskId>): map<string, Reason> {
    map t | t in rejected :: ExecutionFailed
  }

  /** The ACK for a batch whose tasks ended with these outcomes. */
  function AckFor(messageId: string, satellite: string, tasks: seq<TaskId>, outcomes: seq<bool>): Ack
    requires |tasks| == |outcomes|
  {
    var rejected := With(tasks, outcomes, false);
    Ack(messageId, satellite, AllOk(outcomes), With(tasks, outcomes, true), rejected, Reasons(rejected))
  }

  function UnreadableAck(satellite: string): Ack {
    Ack("", satellite, false, [], [], map["payload" := InvalidPayload])
  }

  lemma SplitLast<T>(s: seq<T>)
    requires s != []
    ensures s == s[..|s| - 1] + [s[|s| - 1]]
  {
  }

  lemma AllOkOneMore(outcomes: seq<bool>, ok: bool)
    ensures AllOk(outcomes + [ok]) <==> AllOk(outcomes) && ok
  {
    var longer := outcomes + [ok];
    assert longer[|outcomes|] == ok && forall i :: 0 <= i < |outcomes| ==> longer[i] == outcomes[i];
  }

  /** An ACK accounts for every task once, and accepts exactly when no task is rejected. */
  lemma {:induction false} AckAccountsForTasks(tasks: seq<TaskId>, outcomes: seq<bool>)
    requires |tasks| == |outcomes|
    ensures multiset(With(tasks, outcomes, true)) + multiset(With(tasks, outcomes, false)) == multiset(tasks)
    ensures |With(tasks, outcomes, true)| + |With(tasks, outcomes, false)| == |tasks|
    ensures AllOk(outcomes) <==> With(tasks, outcomes, false) == []
  {
    if tasks != [] {
      var n := |tasks| - 1;
      SplitLast(tasks);
      SplitLast(outcomes);
      AckAccountsForTasks(tasks[..n], outcomes[..n]);
      AllOkOneMore(outcomes[..n], outcomes[n]);
      assert With(tasks, outcomes, true) ==
             With(tasks[..n], outcomes[..n], true) + if outcomes[n] then [tasks[n]] else [];
      assert With(tasks, outcomes, false) ==
             With(tasks[..n], outcomes[..n], false) + if outcomes[n] then [] else [tasks[n]];
    }
  }

  /** What a satellite reports about one task: its progress before it, its completion after it. */
  datatype Notice = Progress(task: TaskId, percent: nat) | Complete(task: TaskId, success: bool)

  function Notices(tasks: seq<TaskId>, outcomes: seq<bool>, k: nat): (r: seq<Notice>)
    requires |tasks| == |outcomes| && k <= |tasks|
    ensures |r| == 2 * k
  {
    if k == 0 then []
    else
      var before := Notices(tasks, outcomes, k - 1);
      before + [Progress(tasks[k - 1], (k - 1) * 100 / |tasks|)] + [Complete(tasks[k - 1], outcomes[k - 1])]
  }

  lemma {:induction false} NoticesAt(tasks: seq<TaskId>, outcomes: seq<bool>, k: nat, i: nat)
    requires |tasks| == |outcomes| && i < k <= |tasks|
    ensures var r := Notices(tasks, outcomes, k);
      r[2 * i] == Progress(tasks[i], i * 100 / |tasks|) && r[2 * i + 1] == Complete(tasks[i], outcomes[i])
  {
    if i < k - 1 {
      NoticesAt(tasks, outcomes, k - 1, i);
    }
  }

  lemma ProductsOrder(n: nat, x: int, y: int)
    requires n * x < n * y
    ensures x < y
  {
  }

  lemma Percent(i: nat, j: nat, n: nat)
    requires i <= j < n
    ensures i * 100 / n <= j * 100 / n < 100
  {
    var a, b := i * 100 / n, j * 100 / n;
    assert n * a <= i * 100 && n * b <= j * 100 < n * (b + 1);
    ProductsOrder(n, a, b + 1);
    ProductsOrder(n, b, 100);
  }

  /** The reported percentages fit their byte, never decrease, and never reach 100. */
  lemma ProgressIsMonotone(tasks: seq<TaskId>, outcomes: seq<bool>, i: nat, j: nat)
    requires |tasks| == |outcomes| && i <= j < |tasks|
    ensures var notices := Notices(tasks, outcomes, |tasks|);
      notices[2 * i].Progress? && notices[2 * j].Progress? && notices[2 * i].percent <= notices[2 * j].percent < 100
  {
    Percent(i, j, |tasks|);
    NoticesAt(tasks, outcomes, |tasks|, i);
    NoticesAt(tasks, outcomes, |tasks|, j);
  }

  /** The ACK after one more task, from the ACK before it. */
  lemma AckGrows(messageId: string, satellite: string, tasks: seq<TaskId>, outcomes: seq<bool>, k: nat)
    requires k < |tasks| == |outcomes|
    ensures var ack := AckFor(messageId, satellite, tasks[..k], outcomes[..k]);
      AckFor(messageId, satellite, tasks[..k + 1], outcomes[..k + 1]) ==
      if outcomes[k] then ack.(acceptedIds := ack.acceptedIds + [tasks[k]])
      else ack.(accepted := false, rejectedIds := ack.rejectedIds + [tasks[k]],
                reasons := ack.reasons[tasks[k] := ExecutionFailed])
    ensures AllOk(outcomes[..k + 1]) <==> AllOk(outcomes[..k]) && outcomes[k]
  {
    SplitLast(tasks[..k + 1]);
    SplitLast(outcomes[..k + 1]);
    assert tasks[..k + 1][..k] == tasks[..k] && outcomes[..k + 1][..k] == outcomes[..k];
    AllOkOneMore(outcomes[..k], outcomes[k]);
    WithOneMore(tasks[..k], outcomes[..k], tasks[k], outcomes[k], true);
    WithOneMore(tasks[..k], outcomes[..k], tasks[k], outcomes[k], false);
    ReasonsOneMore(With(tasks[..k], outcomes[..k], false), tasks[k]);
  }

  lemma ReasonsOneMore(rejected: seq<TaskId>, task: TaskId)
    ensures Reasons(rejected + [task]) == Reasons(rejected)[task := ExecutionFailed]
  {
  }

  /** The state of the batch loop when `k` tasks have run. */
  ghost predicate Underway(messageId: string, satellite: string, tasks: seq<TaskId>, outcomes: seq<bool>, k: nat,
                           ack: Ack, notices: seq<Notice>, allSuccess: bool) {
    && k <= |tasks| == |outcomes|
    && ack == AckFor(messageId, satellite, tasks[..k], outcomes[..k]).(accepted := false)
    && notices == Notices(tasks, outcomes, k)
    && allSuccess == AllOk(outcomes[..k])
  }

  lemma UnderwayStart(messageId: string, satellite: string, tasks: seq<TaskId>, outcomes: seq<bool>)
    requires |tasks| == |outcomes|
    ensures Underway(messageId, satellite, tasks, outcomes, 0, Ack(messageId, satellite, false, [], [], map[]), [],
                     true)
  {
    assert tasks[..0] == [] && outcomes[..0] == [];
    assert Reasons([]) == map[];
  }

  lemma UnderwayEnd(messageId: string, satellite: string, tasks: seq<TaskId>, outcomes: seq<bool>,
                    ack: Ack, notices: seq<Notice>, allSuccess: bool)
    requires Underway(messageId, satellite, tasks, outcomes, |tasks|, ack, notices, allSuccess)
    ensures ack.(accepted := allSuccess) == AckFor(messageId, satellite, tasks, outcomes)
    ensures notices == Notices(tasks, outcomes, |tasks|)
  {
    assert tasks[..|tasks|] == tasks && outcomes[..|tasks|] == outcomes;
  }

  /** The tail of one round of the batch loop: completion notice and bookkeeping. */
  method Record(ghost messageId: string, ghost satellite: string, ghost tasks: seq<TaskId>, ghost outcomes: seq<bool>,
                ghost k: nat, ack: Ack, ghost before: seq<Notice>, started: seq<Notice>, allSuccess: bool,
                task: TaskId, ok: bool)
    returns (ack': Ack, notices: seq<Notice>, allSuccess': bool)
    requires Underway(messageId, satellite, tasks, outcomes, k, ack, before, allSuccess)
    requires k < |tasks| && task == tasks[k] && ok == outcomes[k]
    requires started == before + [Notice.Progress(task, k * 100 / |tasks|)]
    ensures Underway(messageId, satellite, tasks, outcomes, k + 1, ack', notices, allSuccess')
  {
    AckGrows(messageId, satellite, tasks, outcomes, k);
    allSuccess' := allSuccess && ok;
    notices := started + [Complete(task, ok)];
    if ok {
      ack' := ack.(acceptedIds := ack.acceptedIds + [task]);
    } else {
      ack' := ack.(rejectedIds := ack.rejectedIds + [task]);
      ack' := ack'.(reasons := ack'.reasons[task := ExecutionFailed]);
    }
  }

  // ----- the coordinator's tables -----

  datatype Tables = Tables(results: map<string, bool>, finished: map<string, bool>, expected: map<string, int>)

  type Schedule = map<string, seq<TaskId>>

  /** The satellites that get a batch: those with a task. */
  function Tracked(ids: seq<string>, schedule: Schedule): (r: set<string>)
    ensures forall s :: s in r <==> s in ids && s in schedule && schedule[s] != []
  {
    set s | s in ids && s in schedule && schedule[s] != []
  }

  function Begun(ids: seq<string>, schedule: Schedule): Tables {
    var tracked := Tracked(ids, schedule);
    Tables(map s | s in tracked :: false, map s | s in tracked :: false, map s | s in tracked :: |schedule[s]|)
  }

  predicate CountsAgree(t: Tables, ack: Ack)
    requires ack.satellite in t.expected
  {
    var processed := |ack.acceptedIds| + |ack.rejectedIds|;
    t.expected[ack.satellite] <= 0 || processed == 0 || processed == t.expected[ack.satellite]
  }

  /** The tables after an ACK; an ACK of an untracked satellite is ignored. */
  function Acked(t: Tables, ack: Ack): Tables {
    var s := ack.satellite;
    if s !in t.expected then t
    else t.(finished := t.finished[s := true], results := t.results[s := ack.accepted && CountsAgree(t, ack)])
  }

  predicate AllFinished(t: Tables) {
    forall s <- t.finished :: t.finished[s]
  }

  /** The tables once the wait has timed out and the given satellites have been looked at:
      the unfinished ones count as finished and failed. */
  function Marked(t: Tables, seen: set<string>): Tables {
    t.(finished := map s | s in t.finished :: t.finished[s] || s in seen,
       results := map s | s in t.results :: t.results[s] && (s in t.finished && s in seen ==> t.finished[s]))
  }

  function TimedOut(t: Tables): Tables {
    Marked(t, t.finished.Keys)
  }

  lemma MarkedOneMore(t: Tables, seen: set<string>, s: string)
    requires t.results.Keys == t.finished.Keys && s in t.finished && s !in seen
    ensures var m := Marked(t, seen);
      && m.finished[s] == t.finished[s]
      && Marked(t, seen + {s}) ==
         if m.finished[s] then m else m.(finished := m.finished[s := true], results := m.results[s := false])
  {
  }

  lemma MarkedNone(t: Tables)
    ensures Marked(t, {}) == t
  {
  }

  lemma BegunOneMore(ids: seq<string>, s: string, schedule: Schedule)
    ensures Begun(ids + [s], schedule) ==
            if s !in schedule || schedule[s] == [] then Begun(ids, schedule)
            else
              var t := Begun(ids, schedule);
              Tables(t.results[s := false], t.finished[s := false], t.expected[s := |schedule[s]|])
  {
    assert forall k :: k in ids + [s] <==> k in ids || k == s;
    var tracked := Tracked(ids, schedule);
    if s !in schedule || schedule[s] == [] {
      assert Tracked(ids + [s], schedule) == tracked;
    } else {
      assert Tracked(ids + [s], schedule) == tracked + {s};
    }
  }

  function Successful(t: Tables): set<string> {
    set s | s in t.results && t.results[s]
  }

  /** The status tables of `Coordinator`. */
  class StatusTables {
    var results: map<string, bool>
    var finished: map<string, bool>
    var expected: map<string, int>

    function Now(): Tables
      reads this
    {
      Tables(results, finished, expected)
    }

    constructor ()
      ensures Now() == Tables(map[], map[], map[])
    {
      results, finished, expected := map[], map[], map[];
    }

    /** The head of `run`: forget the last run, track every satellite with a task. */
    method Begin(ids: seq<string>, schedule: Schedule)
      modifies this
      ensures Now() == Begun(ids, schedule)
    {
      results, finished, expected := map[], map[], map[];
      for i := 0 to |ids|
        invariant Now() == Begun(ids[..i], schedule)
      {
        var s := ids[i];
        BegunOneMore(ids[..i], s, schedule);
        assert ids[..i + 1] == ids[..i] + [s];
        if s in schedule && schedule[s] != [] {
          results := results[s := false];
          finished := finished[s := false];
          expected := expected[s := |schedule[s]|];
        }
      }
      assert ids[..|ids|] == ids;
    }

    method OnCoordinatorBatchAck(ack: Ack) returns (tracked: bool)
      modifies this
      ensures tracked <==> ack.satellite in old(expected)
      ensures Now() == Acked(old(Now()), ack)
    {
      tracked := false;
      var success := ack.accepted;
      if ack.satellite in expected {
        tracked := true;
        var count := expected[ack.satellite];
        var processed := |ack.acceptedIds| + |ack.rejectedIds|;
        if count > 0 && processed > 0 && processed != count {
          success := false;
        }
        finished := finished[ack.satellite := true];
        results := results[ack.satellite := success];
      }
    }

    /** The predicate of the wait. */
    method Done() returns (done: bool)
      ensures done == AllFinished(Now())
    {
      var keys := SortedKeys(finished.Keys);
      for i := 0 to |keys|
        invariant forall k :: 0 <= k < i ==> finished[keys[k]]
      {
        if !finished[keys[i]] {
          return false;
        }
      }
      done := true;
    }

    /** The tail of `run`, under one lock. */
    method Tally(waitSucceeded: bool) returns (success: nat, total: nat)
      requires results.Keys == finished.Keys
      modifies this
      ensures Now() == if waitSucceeded then old(Now()) else TimedOut(old(Now()))
      ensures total == |finished| && success == |Successful(Now())|
    {
      if !waitSucceeded {
        MarkUnfinished();
      }
      total := |finished|;
      success := CountSuccesses();
    }

    method MarkUnfinished()
      requires results.Keys == finished.Keys
      modifies this`results, this`finished
      ensures Now() == TimedOut(old(Now()))
    {
      var left := finished.Keys;
      ghost var before := Now();
      MarkedNone(before);
      assert before.finished.Keys - left == {};
      while left != {}
        invariant left <= before.finished.Keys
        invariant Now() == Marked(before, before.finished.Keys - left)
        decreases |left|
      {
        var s := Least(left);
        ghost var seen := before.finished.Keys - left;
        ghost var now := Now();
        MarkedOneMore(before, seen, s);
        left := left - {s};
        assert before.finished.Keys - left == seen + {s};
        if !finished[s] {
          finished := finished[s := true];
          results := results[s := false];
        }
        assert Now() == if now.finished[s] then now
                        else now.(finished := now.finished[s := true], results := now.results[s := false]);
      }
      assert before.finished.Keys - left == before.finished.Keys;
    }

    method CountSuccesses() returns (count: nat)
      ensures count == |Successful(Now())|
    {
      var left := results.Keys;
      count := 0;
      ghost var seen: set<string> := {};
      while left != {}
        invariant left <= results.Keys && seen !! left
        invariant seen + (Successful(Now()) * left) == Successful(Now())
        invariant count == |seen|
        decreases |left|
      {
        var s := Least(left);
        left := left - {s};
        if results[s] {
          count := count + 1;
          seen := seen + {s};
        }
      }
      assert seen == Successful(Now());
    }
  }

  // ----- dispatch -----

  datatype Batch = Batch(satellite: string, tasks: seq<TaskId>)

  /** Satellites that `distributeAllTasks` can serve: described in the schedule, and reached by
      `sendMessage`. */
  predicate Served(s: string, known: set<string>, reachable: set<string>) {
    s in known && s in reachable
  }

  ghost predicate Reached(sent: seq<Batch>, s: string) {
    exists k :: 0 <= k < |sent| && sent[k].satellite == s
  }

  predicate Distinct(ids: seq<string>) {
    forall i, j :: 0 <= i < j < |ids| ==> ids[i] != ids[j]
  }

  /** `distributeAllTasks`: one batch with all its tasks for every tracked satellite that can be
      served; it reports failure when one cannot. */
  method DistributeAllTasks(ids: seq<string>, schedule: Schedule, known: set<string>, reachable: set<string>)
    returns (sent: seq<Batch>, ok: bool)
    ensures ok <==> forall s <- Tracked(ids, schedule) :: s in known && s in reachable
    ensures forall s :: Reached(sent, s) <==> s in Tracked(ids, schedule) && s in known && s in reachable
    ensures forall k :: 0 <= k < |sent| ==>
      sent[k].satellite in schedule && sent[k].tasks == schedule[sent[k].satellite]
    ensures Distinct(ids) ==> forall j, k :: 0 <= j < k < |sent| ==> sent[j].satellite != sent[k].satellite
  {
    sent := [];
    var total, success := 0, 0;
    for i := 0 to |ids|
      invariant 0 <= success <= total
      invariant success == total <==> forall s <- Tracked(ids[..i], schedule) :: Served(s, known, reachable)
      invariant forall s :: Reached(sent, s) <==> s in Tracked(ids[..i], schedule) && Served(s, known, reachable)
      invariant forall k :: 0 <= k < |sent| ==>
        sent[k].satellite in ids[..i] && sent[k].satellite in schedule && sent[k].tasks == schedule[sent[k].satellite]
      invariant Distinct(ids) ==> forall j, k :: 0 <= j < k < |sent| ==> sent[j].satellite != sent[k].satellite
    {
      var s := ids[i];
      TrackedOneMore(ids, i, schedule);
      ghost var before := sent;
      if s in schedule && schedule[s] != [] {
        var tasks := schedule[s];
        total := total + |tasks|;
        if s in known && s in reachable {
          sent := sent + [Batch(s, tasks)];
          success := success + |tasks|;
          SentOneMore(before, Batch(s, tasks));
        }
      }
    }
    assert ids[..|ids|] == ids;
    ok := success == total;
  }

  lemma TrackedOneMore(ids: seq<string>, i: nat, schedule: Schedule)
    requires i < |ids|
    ensures Tracked(ids[..i + 1], schedule) ==
            Tracked(ids[..i], schedule) + if ids[i] in schedule && schedule[ids[i]] != [] then {ids[i]} else {}
    ensures Distinct(ids) ==> ids[i] !in ids[..i]
    ensures forall s :: s in ids[..i] ==> s in ids[..i + 1]
    ensures ids[i] in ids[..i + 1]
  {
    assert ids[..i + 1] == ids[..i] + [ids[i]];
  }

  lemma SentOneMore(sent: seq<Batch>, b: Batch)
    ensures forall s :: Reached(sent + [b], s) <==> Reached(sent, s) || s == b.satellite
  {
    var longer := sent + [b];
    assert longer[|sent|] == b;
    forall s | Reached(sent, s) ensures Reached(longer, s) {
      var k :| 0 <= k < |sent| && sent[k].satellite == s;
      assert longer[k] == sent[k];
    }
  }

  // ----- the protocol -----

  /** Where one tracked satellite's batch stands. `outcomes` are the results of the tasks it
      has executed, in batch order. */
  datatype Progress =
    | Scheduled
    | Undelivered
    | InFlight
    | Working(outcomes: seq<bool>)
    | Answered(outcomes: seq<bool>, ack: Ack)

  datatype Report = Report(success: nat, total: nat, counted: set<string>)

  /** `heard` are the satellites whose ACK was handled before the tally. */
  datatype World = World(tables: Tables, sats: map<string, Progress>, heard: set<string>, report: Option<Report>)

  /** The steps of the detached threads, in whatever order. An ACK on its way may be handled at
      any later time, more than once, or never. */
  datatype Event =
    | Dispatch(sat: string, sent: bool)
    | DeliverBatch(sat: string, readable: bool)
    | RunTask(sat: string, ok: bool)
    | Answer(sat: string)
    | DeliverAck(sat: string)
    | Tally(timeout: bool)

  function Start(ids: seq<string>, schedule: Schedule): World {
    World(Begun(ids, schedule), map s | s in Tracked(ids, schedule) :: Scheduled, {}, None)
  }

  predicate Dispatched(w: World) {
    forall s <- w.sats :: !w.sats[s].Scheduled?
  }

  /** What a batch holds once it is answered: an ACK carries the outcomes of its tasks. */
  function AnswerOf(schedule: Schedule, sat: string, outcomes: seq<bool>): Progress
    requires sat in schedule && |outcomes| == |schedule[sat]|
  {
    Answered(outcomes, AckFor("BATCH_" + sat, sat, schedule[sat], outcomes))
  }

  /** One satellite's next progress, if the event is possible for it. */
  function Advanced(schedule: Schedule, sat: string, p: Progress, e: Event): Option<Progress>
    requires sat in schedule
  {
    match e
    case Dispatch(_, sent) => if !p.Scheduled? then None else Some(if sent then InFlight else Undelivered)
    case DeliverBatch(_, readable) =>
      if !p.InFlight? then None else Some(if readable then Working([]) else Answered([], UnreadableAck(sat)))
    case RunTask(_, ok) =>
      if !p.Working? || |p.outcomes| >= |schedule[sat]| then None else Some(Working(p.outcomes + [ok]))
    case Answer(_) =>
      if !p.Working? || |p.outcomes| != |schedule[sat]| then None else Some(AnswerOf(schedule, sat, p.outcomes))
    case DeliverAck(_) => if p.Answered? then Some(p) else None
    case Tally(_) => None
  }

  function Tallied(w: World, timeout: bool): Option<World> {
    if w.report.Some? || !Dispatched(w) || (!timeout && !AllFinished(w.tables)) then None
    else
      var t := if AllFinished(w.tables) then w.tables else TimedOut(w.tables);
      Some(w.(tables := t, report := Some(Report(|Successful(t)|, |t.finished|, Successful(t)))))
  }

  /** The world after an event, if that event is possible. The coordinator dispatches before it
      waits; the other threads also run after the tally. */
  function After(schedule: Schedule, w: World, e: Event): Option<World> {
    if e.Tally? then Tallied(w, e.timeout)
    else if e.sat !in w.sats || e.sat !in schedule || (e.Dispatch? && w.report.Some?) then None
    else
      var p :- Advanced(schedule, e.sat, w.sats[e.sat], e);
      var moved := w.(sats := w.sats[e.sat := p]);
      Some(if !e.DeliverAck? then moved
           else moved.(tables := Acked(w.tables, p.ack),
                       heard := if w.report.None? then w.heard + {e.sat} else w.heard))
  }

  function Replay(ids: seq<string>, schedule: Schedule, history: seq<Event>): Option<World> {
    if history == [] then Some(Start(ids, schedule))
    else
      var w :- Replay(ids, schedule, history[..|history| - 1]);
      After(schedule, w, history[|history| - 1])
  }

  // ----- what every run keeps -----

  predicate ProgressSound(schedule: Schedule, sat: string, p: Progress) {
    && sat in schedule && schedule[sat] != []
    && (p.Working? ==> |p.outcomes| <= |schedule[sat]|)
    && (p.Answered? ==>
          (|p.outcomes| == |schedule[sat]| && p == AnswerOf(schedule, sat, p.outcomes)) ||
          p == Answered([], UnreadableAck(sat)))
  }

  /** The satellite executed every task of its batch, each with success. */
  predicate RanAll(schedule: Schedule, sat: string, p: Progress)
    requires sat in schedule
  {
    (p.Working? || p.Answered?) && |p.outcomes| == |schedule[sat]| && AllOk(p.outcomes)
  }

  predicate SatSound(schedule: Schedule, w: World, s: string) {
    && s in w.sats && s in w.tables.results && s in w.tables.finished && s in w.tables.expected
    && ProgressSound(schedule, s, w.sats[s])
    && w.tables.expected[s] == |schedule[s]|
    && (s in w.heard ==> w.sats[s].Answered?)
    && (w.tables.results[s] ==> w.sats[s].Answered? && w.sats[s].ack.accepted)
    && (w.report.None? ==>
          && (w.tables.finished[s] <==> s in w.heard)
          && (w.tables.results[s] <==> s in w.heard && w.sats[s].ack.accepted))
    && (w.report.Some? ==>
          && w.tables.finished[s]
          && (s in w.report.value.counted <==> s in w.heard && w.sats[s].ack.accepted))
  }

  predicate Sound(ids: seq<string>, schedule: Schedule, w: World) {
    && w.sats.Keys == Tracked(ids, schedule)
    && w.tables.results.Keys == w.tables.finished.Keys == w.tables.expected.Keys == w.sats.Keys
    && w.heard <= w.sats.Keys
    && (w.report.Some? ==>
          && w.report.value.counted <= w.sats.Keys
          && w.report.value.success == |w.report.value.counted|
          && w.report.value.total == |w.sats.Keys|)
    && (forall s {:trigger SatSound(schedule, w, s)} :: s in w.sats ==> SatSound(schedule, w, s))
  }

  /** An ACK of a sound world either answers for as many tasks as were scheduled or for none,
      so the coordinator's comparison of the counts never changes a verdict. */
  lemma CountsAlwaysAgree(schedule: Schedule, t: Tables, sat: string, p: Progress)
    requires ProgressSound(schedule, sat, p) && p.Answered?
    requires sat in t.expected && t.expected[sat] == |schedule[sat]|
    ensures p.ack.satellite == sat && CountsAgree(t, p.ack)
    ensures p.ack.accepted <==> RanAll(schedule, sat, p)
  {
    if |p.outcomes| == |schedule[sat]| {
      AckAccountsForTasks(schedule[sat], p.outcomes);
    }
  }

  lemma AdvancedSound(schedule: Schedule, sat: string, p: Progress, e: Event)
    requires ProgressSound(schedule, sat, p)
    requires Advanced(schedule, sat, p, e).Some?
    ensures ProgressSound(schedule, sat, Advanced(schedule, sat, p, e).value)
    ensures p.Answered? ==> Advanced(schedule, sat, p, e).value == p
  {
  }

  /** One satellite through one step, its own or another's. */
  lemma SatStepSound(schedule: Schedule, w: World, e: Event, s: string)
    requires !e.Tally? && After(schedule, w, e).Some? && SatSound(schedule, w, s) && SatSound(schedule, w, e.sat)
    ensures SatSound(schedule, After(schedule, w, e).value, s)
  {
    AdvancedSound(schedule, e.sat, w.sats[e.sat], e);
    if e.DeliverAck? {
      CountsAlwaysAgree(schedule, w.tables, e.sat, w.sats[e.sat]);
    }
  }

  lemma StepSound(ids: seq<string>, schedule: Schedule, w: World, e: Event)
    requires Sound(ids, schedule, w) && !e.Tally? && After(schedule, w, e).Some?
    ensures Sound(ids, schedule, After(schedule, w, e).value)
  {
    var next := After(schedule, w, e).value;
    assert SatSound(schedule, w, e.sat);
    assert next.sats.Keys == w.sats.Keys && next.report == w.report;
    forall s | s in next.sats ensures SatSound(schedule, next, s) {
      SatStepSound(schedule, w, e, s);
    }
  }

  lemma TallySound(ids: seq<string>, schedule: Schedule, w: World, timeout: bool)
    requires Sound(ids, schedule, w) && Tallied(w, timeout).Some?
    ensures Sound(ids, schedule, Tallied(w, timeout).value)
  {
    var next := Tallied(w, timeout).value;
    forall s | s in next.sats ensures SatSound(schedule, next, s) {
      assert SatSound(schedule, w, s);
    }
    assert next.tables.finished.Keys == w.sats.Keys;
    SizeOfKeys(next.tables.finished);
  }

  lemma SizeOfKeys<K, V>(m: map<K, V>)
    ensures |m| == |m.Keys|
  {
  }

  lemma {:induction false} EveryRunIsSound(ids: seq<string>, schedule: Schedule, history: seq<Event>)
    requires Replay(ids, schedule, history).Some?
    ensures Sound(ids, schedule, Replay(ids, schedule, history).value)
  {
    if history == [] {
      var w := Start(ids, schedule);
      forall s | s in w.sats ensures SatSound(schedule, w, s) {
      }
    } else {
      var before, e := history[..|history| - 1], history[|history| - 1];
      EveryRunIsSound(ids, schedule, before);
      var w := Replay(ids, schedule, before).value;
      if e.Tally? {
        TallySound(ids, schedule, w, e.timeout);
      } else {
        StepSound(ids, schedule, w, e);
      }
    }
  }

  // ----- the theorems -----

  /** The report of every run: it counts exactly the satellites that executed every scheduled
      task with success and whose ACK was handled before the tally; and every tracked satellite
      is finished. */
  lemma ReportIsExact(ids: seq<string>, schedule: Schedule, history: seq<Event>)
    requires Replay(ids, schedule, history).Some?
    requires Replay(ids, schedule, history).value.report.Some?
    ensures var w := Replay(ids, schedule, history).value; var r := w.report.value;
      && r.total == |Tracked(ids, schedule)| && r.success == |r.counted|
      && w.sats.Keys == Tracked(ids, schedule) == w.tables.finished.Keys && AllFinished(w.tables)
      && r.counted == set s | s in w.heard && s in w.sats && s in schedule && RanAll(schedule, s, w.sats[s])
  {
    EveryRunIsSound(ids, schedule, history);
    var w := Replay(ids, schedule, history).value;
    forall s | s in w.sats
      ensures s in schedule && w.tables.finished[s]
      ensures s in w.report.value.counted <==> s in w.heard && RanAll(schedule, s, w.sats[s])
    {
      assert SatSound(schedule, w, s);
      if w.sats[s].Answered? {
        CountsAlwaysAgree(schedule, w.tables, s, w.sats[s]);
      }
    }
  }

  /** A wait that ends because every satellite has answered counts every satellite that
      succeeded. */
  lemma FullWaitCountsAll(ids: seq<string>, schedule: Schedule, history: seq<Event>, timeout: bool)
    requires Replay(ids, schedule, history).Some?
    requires var w := Replay(ids, schedule, history).value;
      w.report.None? && Dispatched(w) && AllFinished(w.tables)
    ensures var w := Replay(ids, schedule, history).value; var next := After(schedule, w, Tally(timeout));
      && next.Some? && next.value.report.Some?
      && next.value.report.value.counted == set s | s in w.sats && s in schedule && RanAll(schedule, s, w.sats[s])
  {
    EveryRunIsSound(ids, schedule, history);
    var w := Replay(ids, schedule, history).value;
    forall s | s in w.sats
      ensures s in schedule && (w.tables.results[s] <==> RanAll(schedule, s, w.sats[s]))
    {
      assert SatSound(schedule, w, s);
      assert w.tables.finished[s];
      CountsAlwaysAgree(schedule, w.tables, s, w.sats[s]);
    }
  }

  /** Nothing that happens after the tally changes the report: no late ACK, no second tally. */
  lemma {:induction false} ReportIsFinal(ids: seq<string>, schedule: Schedule, history: seq<Event>, later: seq<Event>)
    requires Replay(ids, schedule, history + later).Some?
    ensures Replay(ids, schedule, history).Some?
    ensures Replay(ids, schedule, history).value.report.Some? ==>
      Replay(ids, schedule, history + later).value.report == Replay(ids, schedule, history).value.report
  {
    if later == [] {
      assert history + later == history;
    } else {
      var n := |later| - 1;
      assert (history + later)[..|history + later| - 1] == history + later[..n];
      ReportIsFinal(ids, schedule, history, later[..n]);
    }
  }

  lemma ReplayOneMore(ids: seq<string>, schedule: Schedule, history: seq<Event>, e: Event)
    requires Replay(ids, schedule, history).Some?
    ensures Replay(ids, schedule, history + [e]) == After(schedule, Replay(ids, schedule, history).value, e)
  {
    assert (history + [e])[..|history|] == history;
  }

  /** A world with one satellite and nothing heard. */
  function Lone(sat: string, result: bool, done: bool, p: Progress, report: Option<Report>): World {
    World(Tables(map[sat := result], map[sat := done], map[sat := 1]), map[sat := p], {}, report)
  }

  lemma LoneStart(sat: string, task: TaskId)
    ensures Start([sat], map[sat := [task]]) == Lone(sat, false, false, Scheduled, None)
  {
    assert Tracked([sat], map[sat := [task]]) == {sat};
  }

  lemma LoneMoves(sat: string, task: TaskId, p: Progress, e: Event)
    requires !e.Tally? && !e.DeliverAck? && e.sat == sat && Advanced(map[sat := [task]], sat, p, e).Some?
    ensures After(map[sat := [task]], Lone(sat, false, false, p, None), e) ==
            Some(Lone(sat, false, false, Advanced(map[sat := [task]], sat, p, e).value, None))
  {
    var w := Lone(sat, false, false, p, None);
    assert w.sats[sat := Advanced(map[sat := [task]], sat, p, e).value] ==
           map[sat := Advanced(map[sat := [task]], sat, p, e).value];
  }

  lemma LoneTimesOut(sat: string, task: TaskId, p: Progress)
    requires !p.Scheduled?
    ensures After(map[sat := [task]], Lone(sat, false, false, p, None), Tally(true)) ==
            Some(Lone(sat, false, true, p, Some(Report(0, 1, {}))))
  {
    var t := Lone(sat, false, false, p, None).tables;
    assert !t.finished[sat];
    assert TimedOut(t) == Tables(map[sat := false], map[sat := true], map[sat := 1]);
    assert Successful(TimedOut(t)) == {};
  }

  lemma LoneLateAck(sat: string, task: TaskId)
    ensures var p := AnswerOf(map[sat := [task]], sat, [true]); var r := Some(Report(0, 1, {}));
      After(map[sat := [task]], Lone(sat, false, true, p, r), DeliverAck(sat)) == Some(Lone(sat, true, true, p, r))
  {
    var p := AnswerOf(map[sat := [task]], sat, [true]);
    var w := Lone(sat, false, true, p, Some(Report(0, 1, {})));
    AckAccountsForTasks([task], [true]);
    assert w.tables.results[sat := true] == map[sat := true] && w.tables.finished[sat := true] == map[sat := true];
    assert w.sats[sat := p] == map[sat := p];
  }

  /** A success may go uncounted: its ACK, handled after a timeout, sets the satellite's result
      but not the report. */
  lemma LateSuccessIsNotCounted(sat: string, task: TaskId)
    ensures var schedule := map[sat := [task]];
      var history := [Dispatch(sat, true), DeliverBatch(sat, true), RunTask(sat, true), Answer(sat), Tally(true),
                      DeliverAck(sat)];
      && Replay([sat], schedule, history) ==
         Some(Lone(sat, true, true, AnswerOf(schedule, sat, [true]), Some(Report(0, 1, {}))))
      && RanAll(schedule, sat, AnswerOf(schedule, sat, [true]))
  {
    var ids, schedule := [sat], map[sat := [task]];
    var history := [Dispatch(sat, true), DeliverBatch(sat, true), RunTask(sat, true), Answer(sat), Tally(true),
                    DeliverAck(sat)];
    LoneStart(sat, task);
    LateOnward(sat, task);
    OnwardIsReplay(ids, schedule, [], history);
    assert [] + history == history;
  }

  lemma LateOnward(sat: string, task: TaskId)
    ensures var schedule := map[sat := [task]];
      var events := [Dispatch(sat, true), DeliverBatch(sat, true), RunTask(sat, true), Answer(sat), Tally(true),
                     DeliverAck(sat)];
      Onward(schedule, Lone(sat, false, false, Scheduled, None), events) ==
      Some(Lone(sat, true, true, AnswerOf(schedule, sat, [true]), Some(Report(0, 1, {}))))
  {
    LateAnswer(sat, task);
    assert [] + [true] == [true];
    var e2 := [RunTask(sat, true), Answer(sat), Tally(true), DeliverAck(sat)];
    LoneMovesOn(sat, task, InFlight, DeliverBatch(sat, true), e2);
    LoneMovesOn(sat, task, Scheduled, Dispatch(sat, true), [DeliverBatch(sat, true)] + e2);
    assert [Dispatch(sat, true)] + ([DeliverBatch(sat, true)] + e2) ==
           [Dispatch(sat, true), DeliverBatch(sat, true), RunTask(sat, true), Answer(sat), Tally(true),
            DeliverAck(sat)];
  }

  lemma LateAnswer(sat: string, task: TaskId)
    ensures var schedule := map[sat := [task]];
      Onward(schedule, Lone(sat, false, false, Working([]), None),
             [RunTask(sat, true), Answer(sat), Tally(true), DeliverAck(sat)]) ==
      Some(Lone(sat, true, true, AnswerOf(schedule, sat, [true]), Some(Report(0, 1, {}))))
  {
    var end := [Tally(true), DeliverAck(sat)];
    LateEnd(sat, task);
    LoneMovesOn(sat, task, Working([true]), Answer(sat), end);
    assert [] + [true] == [true];
    LoneMovesOn(sat, task, Working([]), RunTask(sat, true), [Answer(sat)] + end);
    assert [RunTask(sat, true)] + ([Answer(sat)] + end) ==
           [RunTask(sat, true), Answer(sat), Tally(true), DeliverAck(sat)];
  }

  lemma LateEnd(sat: string, task: TaskId)
    ensures var schedule := map[sat := [task]]; var answered := AnswerOf(schedule, sat, [true]);
      Onward(schedule, Lone(sat, false, false, answered, None), [Tally(true), DeliverAck(sat)]) ==
      Some(Lone(sat, true, true, answered, Some(Report(0, 1, {}))))
  {
    var schedule := map[sat := [task]];
    var answered, report := AnswerOf(schedule, sat, [true]), Some(Report(0, 1, {}));
    LoneTimesOut(sat, task, answered);
    OnwardFrom(schedule, Lone(sat, false, false, answered, None), Tally(true), [DeliverAck(sat)]);
    LoneLateAck(sat, task);
    OnwardFrom(schedule, Lone(sat, false, true, answered, report), DeliverAck(sat), []);
    assert [Tally(true)] + [DeliverAck(sat)] == [Tally(true), DeliverAck(sat)];
    assert [DeliverAck(sat)] + [] == [DeliverAck(sat)];
  }

  lemma LoneMovesOn(sat: string, task: TaskId, p: Progress, e: Event, rest: seq<Event>)
    requires !e.Tally? && !e.DeliverAck? && e.sat == sat && Advanced(map[sat := [task]], sat, p, e).Some?
    ensures Onward(map[sat := [task]], Lone(sat, false, false, p, None), [e] + rest) ==
            Onward(map[sat := [task]], Lone(sat, false, false, Advanced(map[sat := [task]], sat, p, e).value, None),
                   rest)
  {
    LoneMoves(sat, task, p, e);
    OnwardFrom(map[sat := [task]], Lone(sat, false, false, p, None), e, rest);
  }

  /** Where these events lead from `w`. */
  function Onward(schedule: Schedule, w: World, events: seq<Event>): Option<World>
    decreases |events|
  {
    if events == [] then Some(w)
    else
      var next :- After(schedule, w, events[0]);
      Onward(schedule, next, events[1..])
  }

  lemma OnwardFrom(schedule: Schedule, w: World, e: Event, rest: seq<Event>)
    requires After(schedule, w, e).Some?
    ensures Onward(schedule, w, [e] + rest) == Onward(schedule, After(schedule, w, e).value, rest)
  {
    assert ([e] + rest)[1..] == rest;
  }

  lemma {:induction false} OnwardIsReplay(ids: seq<string>, schedule: Schedule, history: seq<Event>, events: seq<Event>)
    requires Replay(ids, schedule, history).Some?
    requires Onward(schedule, Replay(ids, schedule, history).value, events).Some?
    ensures Replay(ids, schedule, history + events) == Onward(schedule, Replay(ids, schedule, history).value, events)
    decreases |events|
  {
    if events == [] {
      assert history + events == history;
    } else {
      var e, rest := events[0], events[1..];
      ReplayOneMore(ids, schedule, history, e);
      OnwardIsReplay(ids, schedule, history + [e], rest);
      Regroup(history, e, rest);
      assert [e] + rest == events;
    }
  }

  lemma Regroup(a: seq<Event>, e: Event, b: seq<Event>)
    ensures a + [e] + b == a + ([e] + b)
  {
  }
}
