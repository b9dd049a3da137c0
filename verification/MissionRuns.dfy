/** The coordinator's protocol with the satellites that take part in it: what a satellite
    answers is what its executor did. */
module MissionRuns {
  import opened Values
  import opened Execution
  import opened BatchProtocol
  import opened SatelliteSimulators

  /** A satellite: the tasks scheduled for it and the machine in which its batch finds it. */
  datatype Crew = Crew(rollback: bool, file: BehaviorFile, tasks: seq<Assignment>, machine: Machine)

  type Fleet = map<string, Crew>

  /** Everything that decides a mission besides the order of its steps. */
  datatype Mission = Mission(lib: Library, fleet: Fleet, known: set<string>, reachable: set<string>)

  /** Every satellite with a task is in the fleet, with these tasks. */
  predicate Staffed(schedule: Schedule, fleet: Fleet) {
    forall s <- schedule :: schedule[s] != [] ==> s in fleet && schedule[s] == TaskIds(fleet[s].tasks)
  }

  function Results(mission: Mission, s: string): (r: seq<bool>)
    requires s in mission.fleet
    ensures |r| == |mission.fleet[s].tasks|
  {
    var c := mission.fleet[s];
    Outcomes(mission.lib, c.rollback, c.file, s, c.tasks, c.machine)
  }

  predicate TaskSucceeds(mission: Mission, s: string, i: nat)
    requires s in mission.fleet && i < |mission.fleet[s].tasks|
  {
    var c := mission.fleet[s];
    var a := c.tasks[i];
    && a.behaviorRef in c.file
    && ExecTask(mission.lib, c.rollback, TaskOf(a, s), c.file[a.behaviorRef],
                MachineAt(mission.lib, c.rollback, c.file, s, c.tasks, i, c.machine)).result.success
  }

  /** The next result of a satellite is its executor's, and a batch is sent when
      `DistributeAllTasks` sends it. */
  predicate Honest(mission: Mission, w: BatchProtocol.World, e: Event) {
    match e
    case Dispatch(s, sent) => sent == Served(s, mission.known, mission.reachable)
    case RunTask(s, ok) =>
      s in mission.fleet && s in w.sats && w.sats[s].Working? && |w.sats[s].outcomes| < |Results(mission, s)| &&
      ok == Results(mission, s)[|w.sats[s].outcomes|]
    case _ => true
  }

  /** A run of the protocol in which every satellite executes its tasks. */
  predicate Executed(mission: Mission, ids: seq<string>, schedule: Schedule, history: seq<Event>) {
    history == [] ||
    (var before := history[..|history| - 1];
     && Executed(mission, ids, schedule, before)
     && Replay(ids, schedule, before).Some?
     && Honest(mission, Replay(ids, schedule, before).value, history[|history| - 1]))
  }

  /** What a satellite has done so far: it has a batch only if it was served, and its results
      are its executor's. */
  predicate Truthful(mission: Mission, s: string, p: Progress) {
    && (!p.Scheduled? && !p.Undelivered? ==> Served(s, mission.known, mission.reachable))
    && (p.Working? || p.Answered? ==> s in mission.fleet && p.outcomes <= Results(mission, s))
  }

  predicate AllTruthful(mission: Mission, w: BatchProtocol.World) {
    forall s <- w.sats :: Truthful(mission, s, w.sats[s])
  }

  lemma PrefixGrows(a: seq<bool>, b: seq<bool>)
    requires a <= b && |a| < |b|
    ensures a + [b[|a|]] <= b
  {
  }

  lemma StepTruthful(mission: Mission, schedule: Schedule, w: BatchProtocol.World, e: Event)
    requires Staffed(schedule, mission.fleet) && AllTruthful(mission, w) && Honest(mission, w, e)
    requires forall s <- w.sats :: ProgressSound(schedule, s, w.sats[s])
    requires BatchProtocol.After(schedule, w, e).Some?
    ensures AllTruthful(mission, BatchProtocol.After(schedule, w, e).value)
  {
    if !e.Tally? {
      var s := e.sat;
      var p := w.sats[s];
      assert ProgressSound(schedule, s, p) && Truthful(mission, s, p);
      if e.RunTask? {
        PrefixGrows(p.outcomes, Results(mission, s));
      }
      assert Truthful(mission, s, Advanced(schedule, s, p, e).value);
    }
  }

  lemma {:induction false} EveryRunIsTruthful(mission: Mission, ids: seq<string>, schedule: Schedule,
                                              history: seq<Event>)
    requires Staffed(schedule, mission.fleet) && Executed(mission, ids, schedule, history)
    requires Replay(ids, schedule, history).Some?
    ensures AllTruthful(mission, Replay(ids, schedule, history).value)
  {
    if history != [] {
      var before := history[..|history| - 1];
      var w := Replay(ids, schedule, before).value;
      EveryRunIsTruthful(mission, ids, schedule, before);
      EveryRunIsSound(ids, schedule, before);
      forall s | s in w.sats ensures ProgressSound(schedule, s, w.sats[s]) {
        assert SatSound(schedule, w, s);
      }
      StepTruthful(mission, schedule, w, history[|history| - 1]);
    }
  }

  /** The report of every mission: the satellites counted are exactly those whose ACK was
      handled in time, that could read their batch, and each of whose tasks found its behaviour
      and succeeded in the machine its predecessors left. Each of them was sent
      its batch. A batch that was executed to its end is answered as `HandleBatchTaskAssign` does. */
  lemma CountedMeansExecuted(mission: Mission, ids: seq<string>, schedule: Schedule, history: seq<Event>, s: string)
    requires Staffed(schedule, mission.fleet) && Executed(mission, ids, schedule, history)
    requires Replay(ids, schedule, history).Some? && Replay(ids, schedule, history).value.report.Some?
    requires s in Tracked(ids, schedule)
    ensures var w := Replay(ids, schedule, history).value;
      && s in w.sats && s in mission.fleet
      && var n := |mission.fleet[s].tasks|;
         && (s in w.report.value.counted <==>
               s in w.heard && w.sats[s].Answered? && |w.sats[s].outcomes| == n &&
               forall i | 0 <= i < n :: TaskSucceeds(mission, s, i))
         && (s in w.report.value.counted ==> Served(s, mission.known, mission.reachable))
         && (w.sats[s].Answered? && |w.sats[s].outcomes| == n ==>
               w.sats[s].ack == AckFor("BATCH_" + s, s, TaskIds(mission.fleet[s].tasks), Results(mission, s)))
  {
    var w := Replay(ids, schedule, history).value;
    ReportIsExact(ids, schedule, history);
    EveryRunIsSound(ids, schedule, history);
    EveryRunIsTruthful(mission, ids, schedule, history);
    assert SatSound(schedule, w, s) && Truthful(mission, s, w.sats[s]);
    BatchIsExecuted(mission, schedule, s, w.sats[s]);
  }

  /** One satellite's batch. */
  lemma BatchIsExecuted(mission: Mission, schedule: Schedule, s: string, p: Progress)
    requires ProgressSound(schedule, s, p) && Truthful(mission, s, p)
    requires s in mission.fleet && schedule[s] == TaskIds(mission.fleet[s].tasks)
    ensures p.Answered? ==>
      var n := |mission.fleet[s].tasks|;
        && (RanAll(schedule, s, p) <==> |p.outcomes| == n && forall i | 0 <= i < n :: TaskSucceeds(mission, s, i))
        && (|p.outcomes| == n ==>
              p.ack == AckFor("BATCH_" + s, s, TaskIds(mission.fleet[s].tasks), Results(mission, s)))
  {
    ResultsSucceed(mission, s);
    if p.Answered? && |p.outcomes| == |mission.fleet[s].tasks| {
      assert p.outcomes == Results(mission, s);
    }
  }

  lemma ResultsSucceed(mission: Mission, s: string)
    requires s in mission.fleet
    ensures AllOk(Results(mission, s)) <==>
            forall i | 0 <= i < |mission.fleet[s].tasks| :: TaskSucceeds(mission, s, i)
  {
    var c := mission.fleet[s];
    AcceptedMeansAllSucceeded(mission.lib, c.rollback, c.file, s, "", c.tasks, c.machine);
    assert forall i | 0 <= i < |c.tasks| :: TaskSucceeds(mission, s, i) <==>
      c.tasks[i].behaviorRef in c.file &&
      ExecTask(mission.lib, c.rollback, TaskOf(c.tasks[i], s), c.file[c.tasks[i].behaviorRef],
               MachineAt(mission.lib, c.rollback, c.file, s, c.tasks, i, c.machine)).result.success;
  }
}
