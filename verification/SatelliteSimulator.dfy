/** One satellite (src/executor/satellite_simulator.cpp): its behaviour cache, its executor, and
    the loop over a batch. */
module SatelliteSimulators {
  import opened Wrappers
  import opened Values
  import opened Variables
  import opened Behavior
  import opened Execution
  import opened GenericExecutor
  import opened BatchProtocol

  /** `TaskAssignMessage`, with the fields that execution uses. */
  datatype Assignment = Assignment(segmentId: string, taskId: TaskId, behaviorRef: string, params: map<string, string>)

  function TaskOf(a: Assignment, satellite: string): Task {
    Task(a.segmentId, a.taskId, satellite, a.params)
  }

  /** The behaviours that can be loaded from the behaviour file; loading any other throws. */
  type BehaviorFile = map<string, Node>

  /** One task without a cache: its verdict and the machine it leaves. */
  function RunOne(lib: Library, rollback: bool, file: BehaviorFile, satellite: string, a: Assignment,
                  m: Machine): (bool, Machine) {
    if a.behaviorRef !in file then (false, m)
    else
      var out := ExecTask(lib, rollback, TaskOf(a, satellite), file[a.behaviorRef], m);
      (out.result.success, out.machine)
  }

  /** The machine in which the k-th task of a batch starts. */
  function MachineAt(lib: Library, rollback: bool, file: BehaviorFile, satellite: string, tasks: seq<Assignment>,
                     k: nat, m: Machine): Machine
    requires k <= |tasks|
  {
    if k == 0 then m
    else RunOne(lib, rollback, file, satellite, tasks[k - 1],
                MachineAt(lib, rollback, file, satellite, tasks, k - 1, m)).1
  }

  function OutcomeAt(lib: Library, rollback: bool, file: BehaviorFile, satellite: string, tasks: seq<Assignment>,
                     k: nat, m: Machine): bool
    requires k < |tasks|
  {
    RunOne(lib, rollback, file, satellite, tasks[k], MachineAt(lib, rollback, file, satellite, tasks, k, m)).0
  }

  function Outcomes(lib: Library, rollback: bool, file: BehaviorFile, satellite: string, tasks: seq<Assignment>,
                    m: Machine): (r: seq<bool>)
    ensures |r| == |tasks|
  {
    seq(|tasks|, i requires 0 <= i < |tasks| => OutcomeAt(lib, rollback, file, satellite, tasks, i, m))
  }

  function TaskIds(tasks: seq<Assignment>): (r: seq<TaskId>)
    ensures |r| == |tasks|
  {
    seq(|tasks|, i requires 0 <= i < |tasks| => tasks[i].taskId)
  }

  /** A task is executed with the assignment's ids and parameters, for this satellite; one whose
      behaviour cannot be loaded fails and changes nothing. */
  lemma RunsAssignment(lib: Library, rollback: bool, file: BehaviorFile, satellite: string, a: Assignment, m: Machine)
    ensures a.behaviorRef in file ==>
      var task := Task(segmentId := a.segmentId, taskId := a.taskId, satelliteId := satellite, params := a.params);
        var out := ExecTask(lib, rollback, task, file[a.behaviorRef], m);
        RunOne(lib, rollback, file, satellite, a, m) == (out.result.success, out.machine)
    ensures a.behaviorRef !in file ==> RunOne(lib, rollback, file, satellite, a, m) == (false, m)
  {
  }

  /** The k-th task of a batch starts in the machine that the tasks before it leave, the first in the
      machine at the batch's arrival. */
  lemma MachinesFollow(lib: Library, rollback: bool, file: BehaviorFile, satellite: string, tasks: seq<Assignment>,
                       k: nat, m: Machine)
    requires k < |tasks|
    ensures MachineAt(lib, rollback, file, satellite, tasks, 0, m) == m
    ensures var run := RunOne(lib, rollback, file, satellite, tasks[k],
                              MachineAt(lib, rollback, file, satellite, tasks, k, m));
      && MachineAt(lib, rollback, file, satellite, tasks, k + 1, m) == run.1
      && Outcomes(lib, rollback, file, satellite, tasks, m)[k] == run.0
  {
  }

  lemma {:induction false} WithMeans(ids: seq<TaskId>, outcomes: seq<bool>, outcome: bool, id: TaskId)
    requires |ids| == |outcomes|
    ensures id in With(ids, outcomes, outcome) <==> exists k :: 0 <= k < |ids| && ids[k] == id && outcomes[k] == outcome
  {
    if ids != [] {
      var n := |ids| - 1;
      WithMeans(ids[..n], outcomes[..n], outcome, id);
      if k :| 0 <= k < |ids[..n]| && ids[..n][k] == id && outcomes[..n][k] == outcome {
        assert ids[k] == id && outcomes[k] == outcome;
      }
      if k :| 0 <= k < |ids| && ids[k] == id && outcomes[k] == outcome {
        assert k < n ==> ids[..n][k] == id && outcomes[..n][k] == outcome;
      }
    }
  }

  /** An ACK accepts the ids of the tasks that succeeded and rejects those of the others. */
  lemma AckNamesTasks(lib: Library, rollback: bool, file: BehaviorFile, satellite: string, messageId: string,
                      tasks: seq<Assignment>, m: Machine, id: TaskId)
    ensures var outcomes := Outcomes(lib, rollback, file, satellite, tasks, m);
      var ack := AckFor(messageId, satellite, TaskIds(tasks), outcomes);
      && ack.messageId == messageId && ack.satellite == satellite
      && (id in ack.acceptedIds <==> exists k :: 0 <= k < |tasks| && tasks[k].taskId == id && outcomes[k])
      && (id in ack.rejectedIds <==> exists k :: 0 <= k < |tasks| && tasks[k].taskId == id && !outcomes[k])
      && (id in ack.reasons <==> id in ack.rejectedIds) && (id in ack.reasons ==> ack.reasons[id] == ExecutionFailed)
  {
    var outcomes, ids := Outcomes(lib, rollback, file, satellite, tasks, m), TaskIds(tasks);
    assert forall k :: 0 <= k < |tasks| ==> ids[k] == tasks[k].taskId;
    WithMeans(ids, outcomes, true, id);
    WithMeans(ids, outcomes, false, id);
  }

  /** The k-th id and outcome of a batch. */
  predicate Foretold(lib: Library, rollback: bool, file: BehaviorFile, satellite: string, tasks: seq<Assignment>,
                     m: Machine, ids: seq<TaskId>, outcomes: seq<bool>, k: nat)
  {
    && k < |tasks| && k < |ids| && k < |outcomes|
    && ids[k] == tasks[k].taskId && outcomes[k] == OutcomeAt(lib, rollback, file, satellite, tasks, k, m)
  }

  /** A batch is accepted exactly when every task's behaviour could be loaded and every task
      succeeded, each in the state its predecessors left. */
  lemma AcceptedMeansAllSucceeded(lib: Library, rollback: bool, file: BehaviorFile, satellite: string,
                                  messageId: string, tasks: seq<Assignment>, m: Machine)
    ensures AckFor(messageId, satellite, TaskIds(tasks),
                   Outcomes(lib, rollback, file, satellite, tasks, m)).accepted <==>
            forall i :: 0 <= i < |tasks| ==>
              tasks[i].behaviorRef in file &&
              ExecTask(lib, rollback, TaskOf(tasks[i], satellite), file[tasks[i].behaviorRef],
                       MachineAt(lib, rollback, file, satellite, tasks, i, m)).result.success
  {
    var outcomes := Outcomes(lib, rollback, file, satellite, tasks, m);
    forall i | 0 <= i < |tasks|
      ensures outcomes[i] <==>
              tasks[i].behaviorRef in file &&
              ExecTask(lib, rollback, TaskOf(tasks[i], satellite), file[tasks[i].behaviorRef],
                       MachineAt(lib, rollback, file, satellite, tasks, i, m)).result.success
    {
      assert outcomes[i] == OutcomeAt(lib, rollback, file, satellite, tasks, i, m);
    }
  }

  class SatelliteSimulator {
    const id: string
    const file: BehaviorFile
    const executor: Executor
    var cache: map<string, Node>

    constructor (id: string, file: BehaviorFile, executor: Executor)
      requires executor.Valid()
      ensures Valid() && this.id == id && this.file == file && this.executor == executor
    {
      this.id, this.file, this.executor := id, file, executor;
      cache := map[];
    }

    /** What is cached is what the file holds. */
    ghost predicate Valid()
      reads this, executor
    {
      executor.Valid() && forall ref :: ref in cache ==> ref in file && cache[ref] == file[ref]
    }

    /** `executeSingleTask`: the cache cannot be noticed. */
    method ExecuteSingleTask(a: Assignment) returns (ok: bool)
      requires Valid()
      modifies this`cache, executor`mailbox, executor`fuse, executor`feed, executor.vars
      ensures Valid()
      ensures (ok, executor.All()) == RunOne(executor.lib, executor.rollback, file, id, a, old(executor.All()))
    {
      var behavior;
      if a.behaviorRef in cache {
        behavior := cache[a.behaviorRef];
      } else {
        if a.behaviorRef !in file {
          return false;
        }
        behavior := file[a.behaviorRef];
        cache := cache[a.behaviorRef := behavior];
      }
      ghost var before := executor.All();
      assert before == old(executor.All());
      var result := executor.ExecuteTask(TaskOf(a, id), behavior);
      ok := result.success;
    }

    /** `handleBatchTaskAssign`; a payload may be unreadable. */
    method HandleBatchTaskAssign(batch: Option<(string, seq<Assignment>)>) returns (ack: Ack, notices: seq<Notice>)
      requires Valid()
      modifies this`cache, executor`mailbox, executor`fuse, executor`feed, executor.vars
      ensures Valid()
      ensures batch.None? ==> ack == UnreadableAck(id) && notices == [] && executor.All() == old(executor.All())
      ensures batch.Some? ==>
        var (messageId, tasks) := batch.value;
          var outcomes := Outcomes(executor.lib, executor.rollback, file, id, tasks, old(executor.All()));
          && ack == AckFor(messageId, id, TaskIds(tasks), outcomes)
          && notices == Notices(TaskIds(tasks), outcomes, |tasks|)
          && executor.All() == MachineAt(executor.lib, executor.rollback, file, id, tasks, |tasks|, old(executor.All()))
    {
      ack := Ack("", id, false, [], [], map[]);
      notices := [];
      if batch.None? {
        ack := ack.(reasons := ack.reasons["payload" := InvalidPayload]);
        return;
      }
      var (messageId, tasks) := batch.value;
      ack := ack.(messageId := messageId);
      ack, notices := RunBatch(messageId, tasks, ack);
    }

    /** The k-th task of a batch, whose predecessors have run. */
    method ExecuteTaskAt(tasks: seq<Assignment>, k: nat, ghost first: Machine) returns (ok: bool)
      requires Valid() && k < |tasks|
      requires executor.All() == MachineAt(executor.lib, executor.rollback, file, id, tasks, k, first)
      modifies this`cache, executor`mailbox, executor`fuse, executor`feed, executor.vars
      ensures Valid()
      ensures ok == OutcomeAt(executor.lib, executor.rollback, file, id, tasks, k, first)
      ensures executor.All() == MachineAt(executor.lib, executor.rollback, file, id, tasks, k + 1, first)
    {
      ok := ExecuteSingleTask(tasks[k]);
    }

    /** One round of the batch loop. */
    method RunNext(ghost messageId: string, tasks: seq<Assignment>, k: nat, ack: Ack, notices: seq<Notice>,
                   allSuccess: bool, ghost first: Machine, ghost ids: seq<TaskId>, ghost outcomes: seq<bool>)
      returns (ack': Ack, notices': seq<Notice>, allSuccess': bool)
      requires Valid() && k < |tasks| == |ids|
      requires executor.All() == MachineAt(executor.lib, executor.rollback, file, id, tasks, k, first)
      requires Foretold(executor.lib, executor.rollback, file, id, tasks, first, ids, outcomes, k)
      requires Underway(messageId, id, ids, outcomes, k, ack, notices, allSuccess)
      modifies this`cache, executor`mailbox, executor`fuse, executor`feed, executor.vars
      ensures Valid()
      ensures executor.All() == MachineAt(executor.lib, executor.rollback, file, id, tasks, k + 1, first)
      ensures Underway(messageId, id, ids, outcomes, k + 1, ack', notices', allSuccess')
    {
      var total := |tasks|;
      var task := tasks[k];
      var percent := k * 100 / (if total < 1 then 1 else total);
      var started := notices + [Notice.Progress(task.taskId, percent)];
      var ok := ExecuteTaskAt(tasks, k, first);
      ack', notices', allSuccess' :=
        Record(messageId, id, ids, outcomes, k, ack, notices, started, allSuccess, task.taskId, ok);
    }

    /** The loop of a batch. `ids` and `outcomes` are what it is about to find. */
    method RunAll(ghost messageId: string, tasks: seq<Assignment>, start: Ack, ghost first: Machine,
                  ghost ids: seq<TaskId>, ghost outcomes: seq<bool>)
      returns (ack: Ack, notices: seq<Notice>, allSuccess: bool)
      requires Valid() && executor.All() == first && |tasks| == |ids|
      requires forall k | 0 <= k < |tasks| ::
        Foretold(executor.lib, executor.rollback, file, id, tasks, first, ids, outcomes, k)
      requires Underway(messageId, id, ids, outcomes, 0, start, [], true)
      modifies this`cache, executor`mailbox, executor`fuse, executor`feed, executor.vars
      ensures Valid()
      ensures executor.All() == MachineAt(executor.lib, executor.rollback, file, id, tasks, |tasks|, first)
      ensures Underway(messageId, id, ids, outcomes, |tasks|, ack, notices, allSuccess)
    {
      ack, notices, allSuccess := start, [], true;
      var completed := 0;
      while completed < |tasks|
        invariant Valid() && 0 <= completed <= |tasks|
        invariant executor.All() == MachineAt(executor.lib, executor.rollback, file, id, tasks, completed, first)
        invariant Underway(messageId, id, ids, outcomes, completed, ack, notices, allSuccess)
      {
        ack, notices, allSuccess := RunNext(messageId, tasks, completed, ack, notices, allSuccess, first, ids,
                                            outcomes);
        completed := completed + 1;
      }
    }

    method RunBatch(messageId: string, tasks: seq<Assignment>, start: Ack) returns (ack: Ack, notices: seq<Notice>)
      requires Valid() && start == Ack(messageId, id, false, [], [], map[])
      modifies this`cache, executor`mailbox, executor`fuse, executor`feed, executor.vars
      ensures Valid()
      ensures var outcomes := Outcomes(executor.lib, executor.rollback, file, id, tasks, old(executor.All()));
        && ack == AckFor(messageId, id, TaskIds(tasks), outcomes)
        && notices == Notices(TaskIds(tasks), outcomes, |tasks|)
        && executor.All() == MachineAt(executor.lib, executor.rollback, file, id, tasks, |tasks|, old(executor.All()))
    {
      ghost var first, ids := executor.All(), TaskIds(tasks);
      ghost var outcomes := Outcomes(executor.lib, executor.rollback, file, id, tasks, first);
      UnderwayStart(messageId, id, ids, outcomes);
      var allSuccess;
      ack, notices, allSuccess := RunAll(messageId, tasks, start, first, ids, outcomes);
      UnderwayEnd(messageId, id, ids, outcomes, ack, notices, allSuccess);
      ack := ack.(accepted := allSuccess);
    }
  }
}
