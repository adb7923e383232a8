/**
 * The background-task bookkeeping of src/watermarker/tasks/watermark.py: the
 * in-memory store with its lifecycle hooks, the single-file driver with
 * bounded exponential-backoff retry and the batch driver with integer
 * progress. The store is explicitly owned (a `TaskManager` object) instead of
 * a module-level dict; the media engine is an oracle; the hooks' delivery is
 * recorded as a log of the events chosen and the payloads they carry.
 */
module Tasks {
  import opened Wrappers
  import opened MediaEngine
  import opened TaskModel

  datatype HookEvent = Start | Complete | Error

  /** The event name handed to `trigger_hook`. */
  function HookName(e: HookEvent): string
  {
    match e
    case Start => "start"
    case Complete => "complete"
    case Error => "error"
  }

  /** A hook triggered by the store: its event and the task snapshot it delivers. */
  datatype Hook = Hook(event: HookEvent, payload: Snapshot)

  /** `Task.to_dict()`, where a missing result reads as `{}`. */
  function ToDict(t: Task): Snapshot
  {
    Snapshot(t.taskId, t.status, t.createdAt, t.startedAt, t.completedAt,
             if t.result.Some? then Object(t.result.value) else EmptyObject,
             t.error, t.retryCount, t.maxRetries)
  }

  /**
   * The hook an update fires, chosen by the transition: "start" on entering
   * PROCESSING from another status, "complete" on COMPLETED, "error" on FAILED,
   * nothing otherwise.
   */
  function HookFor(previous: TaskStatus, status: TaskStatus): (e: Option<HookEvent>)
    ensures e == Some(Start) <==> status == Processing && previous != Processing
    ensures e == Some(Complete) <==> status == Completed
    ensures e == Some(Error) <==> status == Failed
    ensures e.None? <==> status != Completed && status != Failed && !(status == Processing && previous != Processing)
  {
    if status == Processing && previous != Processing then Some(Start)
    else if status == Completed then Some(Complete)
    else if status == Failed then Some(Error)
    else None
  }

  /** The hooks logged by an update from `previous` to `status` that left the task as `updated`. */
  function HooksFired(previous: TaskStatus, status: TaskStatus, updated: Task): seq<Hook>
  {
    match HookFor(previous, status)
    case Some(e) => [Hook(e, ToDict(updated))]
    case None => []
  }

  /** The events of a hook log, in order. */
  function Events(hs: seq<Hook>): (es: seq<HookEvent>)
    ensures |es| == |hs|
    ensures forall i :: 0 <= i < |hs| ==> es[i] == hs[i].event
  {
    seq(|hs|, i requires 0 <= i < |hs| => hs[i].event)
  }

  /** `n` copies of `e`. */
  function Repeat(e: HookEvent, n: nat): (es: seq<HookEvent>)
    ensures |es| == n && forall i :: 0 <= i < n ==> es[i] == e
  {
    seq(n, i => e)
  }

  class TaskManager {
    /** `_tasks_db` */
    var tasks: map<TaskId, Task>
    /** Every hook triggered so far, in order. */
    var hooks: seq<Hook>
    /** Every write of `update_task_status` so far, in order: the id and the task stored under it. */
    ghost var updates: seq<(TaskId, Task)>

    constructor ()
      ensures tasks == map[] && hooks == [] && updates == []
    {
      tasks := map[];
      hooks := [];
      updates := [];
    }

    /** `create_task`: a PENDING task with no retries yet, stored under the fresh `id`. */
    method CreateTask(id: TaskId, now: Time, maxRetries: int, retryDelay: int) returns (task: Task)
      modifies this
      ensures task == NewTask(id, now, maxRetries, retryDelay)
      ensures task.status == Pending && task.retryCount == 0 && task.taskId == id
      ensures tasks == old(tasks)[id := task]
      ensures hooks == old(hooks) && updates == old(updates)
    {
      task := NewTask(id, now, maxRetries, retryDelay);
      tasks := tasks[id := task];
    }

    /** `get_task`: the stored task, `None` for an unknown id. */
    function GetTask(id: TaskId): (r: Option<Task>)
      reads this
      ensures r.Some? <==> id in tasks
      ensures r.Some? ==> r.value == tasks[id]
    {
      if id in tasks then Some(tasks[id]) else None
    }

    /**
     * `update_task_status`: an unknown id changes nothing and gives `None`;
     * otherwise only this task changes, to `Updated(...)`, and the hook chosen
     * by the transition is logged with the updated snapshot, and the write
     * itself is logged in `updates`.
     */
    method UpdateTaskStatus(id: TaskId, status: TaskStatus, kwargs: seq<Assignment>, now: Time)
      returns (r: Option<Task>)
      modifies this
      ensures id !in old(tasks) ==> r == None && tasks == old(tasks) && hooks == old(hooks) && updates == old(updates)
      ensures id in old(tasks) ==>
        && r == Some(Updated(old(tasks)[id], status, kwargs, now))
        && tasks == old(tasks)[id := r.value]
        && hooks == old(hooks) + HooksFired(old(tasks)[id].status, status, r.value)
        && updates == old(updates) + [(id, r.value)]
    {
      if id !in tasks {
        return None;
      }
      var task := tasks[id];
      var previous := task.status;
      var stamped := Stamp(task, status, now);
      task := stamped;
      var k := 0;
      while k < |kwargs|
        invariant 0 <= k <= |kwargs|
        invariant task == AssignAll(stamped, kwargs[..k])
      {
        assert kwargs[..k + 1][..k] == kwargs[..k];
        task := Assign(task, kwargs[k]);
        k := k + 1;
      }
      assert kwargs[..k] == kwargs;
      tasks := tasks[id := task];
      updates := updates + [(id, task)];
      var e := HookFor(previous, status);
      if e.Some? {
        hooks := hooks + [Hook(e.value, ToDict(task))];
      }
      r := Some(task);
    }

    /**
     * `cleanup_old_tasks`: removes exactly the tasks completed before
     * `now - hours`, keeps the rest unchanged, and returns how many it removed.
     */
    method CleanupOldTasks(hours: int, now: Time) returns (removed: nat)
      modifies this
      ensures tasks == Swept(old(tasks), Cutoff(now, hours))
      ensures removed == |ExpiredIds(old(tasks), Cutoff(now, hours))| == |old(tasks)| - |tasks|
      ensures hooks == old(hooks) && updates == old(updates)
    {
      var cutoff := Cutoff(now, hours);
      var toDelete: set<TaskId> := {};
      var unseen := tasks.Keys;
      while unseen != {}
        invariant unseen <= tasks.Keys && tasks == old(tasks) && hooks == old(hooks) && updates == old(updates)
        invariant toDelete == set id | id in tasks.Keys - unseen && Expired(tasks[id], cutoff)
        decreases unseen
      {
        var id :| id in unseen;
        if Expired(tasks[id], cutoff) {
          toDelete := toDelete + {id};
        }
        unseen := unseen - {id};
      }
      assert toDelete == ExpiredIds(old(tasks), cutoff);
      var remaining := toDelete;
      while remaining != {}
        invariant remaining <= toDelete
        invariant hooks == old(hooks) && updates == old(updates)
        invariant tasks == map id | id in old(tasks) && id !in toDelete - remaining :: old(tasks)[id]
        decreases remaining
      {
        var id :| id in remaining;
        tasks := map i | i in tasks && i != id :: tasks[i];
        remaining := remaining - {id};
      }
      assert tasks == Swept(old(tasks), cutoff);
      SweptSize(old(tasks), cutoff);
      removed := |toDelete|;
    }
  }

  /** The effect of one `process_watermark_task` call and of the retries it schedules. */
  datatype Run = Run(task: Task, delays: seq<int>, hooks: seq<Hook>, clock: Time)

  /** The PROCESSING update that opens every attempt, with progress 0. */
  function Begin(t: Task, now: Time): Task
  {
    Updated(t, Processing, [SetResult(Some(Progress(0)))], now)
  }

  /** The COMPLETED update after the engine produced `out`. */
  function Succeed(t: Task, out: string, now: Time): Task
  {
    Updated(t, Completed, [SetResult(Some(Output(out, Some(100))))], now)
  }

  /** The keywords of the RETRYING and FAILED updates after the engine raised `err`. */
  function FailureArgs(err: string, retryCount: int): seq<Assignment>
  {
    [SetError(Some(err)), SetRetryCount(retryCount), SetResult(Some(Progress(0)))]
  }

  /**
   * What one attempt of `process_watermark_task` leaves behind: the task and
   * the hooks fired, and, after a failure below the limit, the backoff sleep
   * before the next attempt.
   */
  datatype Step =
    | Finished(task: Task, fired: seq<Hook>)
    | Rescheduled(task: Task, fired: seq<Hook>, delay: int)

  /**
   * The task as one attempt's PROCESSING update leaves it: `started_at`
   * stamped if it was unset, progress 0.
   */
  function Processing0(t: Task, now: Time): Task
  {
    t.(status := Processing, startedAt := if t.startedAt.None? then Some(now) else t.startedAt,
       result := Some(Progress(0)))
  }

  /**
   * One attempt, given the engine's answer `outcome`, field by field: mark
   * the task PROCESSING with progress 0, firing "start" unless it already was
   * PROCESSING; on success COMPLETED with the output path and progress 100,
   * firing "complete"; on failure RETRYING with the error and the next retry
   * count while `retry_count < max_retries`, with a sleep of
   * `retry_delay * 2 ** retry_count`, else FAILED, firing "error".
   * `AttemptOnceByUpdates` shows this is what the store's updates with the
   * source's keywords give.
   */
  function AttemptOnce(t: Task, outcome: EngineResult, retryCount: nat, now: Time): (s: Step)
    ensures s.Rescheduled? <==> outcome.Raised? && retryCount < t.maxRetries
    ensures s.Rescheduled? ==> s.delay == RetryDelay(t.retryDelay, retryCount)
    ensures s.task.maxRetries == t.maxRetries && s.task.retryDelay == t.retryDelay
    ensures s.task.taskId == t.taskId && s.task.createdAt == t.createdAt
  {
    var processing := Processing0(t, now);
    var started := if t.status == Processing then [] else [Hook(Start, ToDict(processing))];
    match outcome
    case Produced(out) =>
      var done := processing.(status := Completed, completedAt := Some(now), result := Some(Output(out, Some(100))));
      Finished(done, started + [Hook(Complete, ToDict(done))])
    case Raised(err) =>
      if retryCount < t.maxRetries then
        Rescheduled(processing.(status := Retrying, error := Some(err), retryCount := retryCount + 1),
                    started, RetryDelay(t.retryDelay, retryCount))
      else
        var failed := processing.(status := Failed, completedAt := Some(now), error := Some(err), retryCount := retryCount);
        Finished(failed, started + [Hook(Error, ToDict(failed))])
  }

  /**
   * `process_watermark_task` as the source writes it, by recursion: one
   * attempt (`attempt(retryCount)` is the engine's answer at that retry
   * count), then, when it rescheduled, the sleep and the call at
   * `retry_count + 1`.
   */
  function RetryRun(t: Task, attempt: nat -> EngineResult, retryCount: nat, now: Time): Run
    decreases if retryCount < t.maxRetries then t.maxRetries - retryCount else 0, 1
  {
    match AttemptOnce(t, attempt(retryCount), retryCount, now)
    case Finished(task, fired) => Run(task, [], fired, now)
    case Rescheduled(task, fired, delay) => Retry(task, fired, delay, attempt, retryCount, now)
  }

  /**
   * What follows a rescheduled attempt: the sleep of `delay` seconds and the
   * call at `retry_count + 1`, after the hooks the attempt fired.
   */
  function Retry(task: Task, fired: seq<Hook>, delay: int, attempt: nat -> EngineResult, retryCount: nat, now: Time): Run
    requires retryCount < task.maxRetries
    decreases task.maxRetries - retryCount, 0
  {
    var rest := RetryRun(task, attempt, retryCount + 1, Advance(now, delay));
    Run(rest.task, [delay] + rest.delays, fired + rest.hooks, rest.clock)
  }

  /**
   * The tasks `process_watermark_task` and the retries it schedules store, in
   * order: each attempt's PROCESSING update, then its COMPLETED, RETRYING or
   * FAILED one.
   */
  function RunTasks(t: Task, attempt: nat -> EngineResult, retryCount: nat, now: Time): seq<Task>
    decreases if retryCount < t.maxRetries then t.maxRetries - retryCount else 0
  {
    var s := AttemptOnce(t, attempt(retryCount), retryCount, now);
    [Processing0(t, now), s.task]
      + (if s.Rescheduled? then RunTasks(s.task, attempt, retryCount + 1, Advance(now, s.delay)) else [])
  }

  /**
   * `process_watermark_task`, recursive like the source: a missing task makes
   * it a no-op; otherwise it leaves the store and the hook log as `RetryRun`
   * describes, and returns the backoff sleeps in order.
   */
  method ProcessWatermarkTask(store: TaskManager, id: TaskId, attempt: nat -> EngineResult, retryCount: nat, now: Time)
    returns (delays: seq<int>)
    modifies store
    ensures id !in old(store.tasks) ==>
      store.tasks == old(store.tasks) && store.hooks == old(store.hooks) && store.updates == old(store.updates) && delays == []
    ensures id in old(store.tasks) ==>
      var run := RetryRun(old(store.tasks)[id], attempt, retryCount, now);
      && store.tasks == old(store.tasks)[id := run.task]
      && store.hooks == old(store.hooks) + run.hooks
      && store.updates == old(store.updates) + WritesTo(id, RunTasks(old(store.tasks)[id], attempt, retryCount, now))
      && delays == run.delays
    decreases if id in store.tasks && retryCount < store.tasks[id].maxRetries then store.tasks[id].maxRetries - retryCount else 0
  {
    var found := store.GetTask(id);
    if found.None? {
      return [];
    }
    var task := found.value;
    ghost var step := AttemptOnce(task, attempt(retryCount), retryCount, now);
    var retry := Attempt(store, id, attempt(retryCount), retryCount, now);
    if retry {
      var delay := RetryDelay(task.retryDelay, retryCount);
      ghost var mid := store.tasks;
      ghost var afterFirst := store.updates;
      ghost var rest := RetryRun(step.task, attempt, retryCount + 1, Advance(now, delay));
      ghost var written := RunTasks(step.task, attempt, retryCount + 1, Advance(now, delay));
      var later := ProcessWatermarkTask(store, id, attempt, retryCount + 1, Advance(now, delay));
      delays := [delay] + later;
      RetryRunUnfold(task, attempt, retryCount, now);
      assert store.tasks == mid[id := rest.task] == old(store.tasks)[id := rest.task];
      assert store.hooks == old(store.hooks) + (step.fired + rest.hooks);
      assert RunTasks(task, attempt, retryCount, now) == [Processing0(task, now), step.task] + written;
      AttemptWrites(id, Processing0(task, now), step.task, written);
      assert store.updates == afterFirst + WritesTo(id, written);
    } else {
      delays := [];
      RetryRunUnfold(task, attempt, retryCount, now);
      assert RunTasks(task, attempt, retryCount, now) == [Processing0(task, now), step.task];
      AttemptWrites(id, Processing0(task, now), step.task, []);
    }
  }

  /**
   * The body of the `try` block and its `except`: the PROCESSING update, the
   * engine's answer `outcome`, then the COMPLETED update or `RecordFailure`.
   * It leaves the task and the hooks as `AttemptOnce` describes and tells
   * whether the caller sleeps and retries.
   */
  method Attempt(store: TaskManager, id: TaskId, outcome: EngineResult, retryCount: nat, now: Time) returns (retry: bool)
    requires id in store.tasks
    modifies store
    ensures var step := AttemptOnce(old(store.tasks)[id], outcome, retryCount, now);
      && (retry <==> step.Rescheduled?)
      && store.tasks == old(store.tasks)[id := step.task]
      && store.hooks == old(store.hooks) + step.fired
      && store.updates == old(store.updates) + [(id, Processing0(old(store.tasks)[id], now)), (id, step.task)]
  {
    var task := store.tasks[id];
    ghost var step := AttemptOnce(task, outcome, retryCount, now);
    ghost var before := store.hooks;
    AttemptOnceByUpdates(task, outcome, retryCount, now);
    var _ := store.UpdateTaskStatus(id, Processing, [SetResult(Some(Progress(0)))], now);
    assert store.tasks[id] == Begin(task, now);
    UpdatedKeepsPolicy(task, Processing, [SetResult(Some(Progress(0)))], now);
    match outcome {
      case Produced(out) =>
        var _ := store.UpdateTaskStatus(id, Completed, [SetResult(Some(Output(out, Some(100))))], now);
        retry := false;
      case Raised(err) =>
        retry := RecordFailure(store, id, err, retryCount, now);
    }
    assert store.tasks[id] == step.task && store.hooks == before + step.fired;
  }

  /**
   * The `except` block of `process_watermark_task` after the engine raised
   * `err`: RETRYING with the error and the next retry count while
   * `retry_count < max_retries` (then the caller sleeps and retries), else
   * FAILED with the error and the retry count reached.
   */
  method RecordFailure(store: TaskManager, id: TaskId, err: string, retryCount: nat, now: Time) returns (retry: bool)
    requires id in store.tasks
    modifies store
    ensures retry <==> retryCount < old(store.tasks)[id].maxRetries
    ensures var status := if retry then Retrying else Failed;
      var after := Updated(old(store.tasks)[id], status, FailureArgs(err, if retry then retryCount + 1 else retryCount), now);
      && store.tasks == old(store.tasks)[id := after]
      && store.hooks == old(store.hooks) + HooksFired(old(store.tasks)[id].status, status, after)
      && store.updates == old(store.updates) + [(id, after)]
  {
    var task := store.tasks[id];
    UpdatedKeepsPolicy(task, Retrying, FailureArgs(err, retryCount + 1), now);
    UpdatedKeepsPolicy(task, Failed, FailureArgs(err, retryCount), now);
    if retryCount < task.maxRetries {
      var _ := store.UpdateTaskStatus(id, Retrying, FailureArgs(err, retryCount + 1), now);
      retry := true;
    } else {
      var _ := store.UpdateTaskStatus(id, Failed, FailureArgs(err, retryCount), now);
      retry := false;
    }
  }

  /** The log of one attempt's two writes followed by the writes of the retries. */
  lemma AttemptWrites(id: TaskId, first: Task, after: Task, later: seq<Task>)
    ensures WritesTo(id, [first, after] + later) == [(id, first), (id, after)] + WritesTo(id, later)
  {
  }

  /** `Begin` resets the result to progress 0 and stamps `started_at` on the first attempt only. */
  lemma BeginValue(t: Task, now: Time)
    ensures Begin(t, now) == Stamp(t, Processing, now).(result := Some(Progress(0)))
  {
    var args, s := [SetResult(Some(Progress(0)))], Stamp(t, Processing, now);
    assert args[..0] == [];
    assert AssignAll(s, args) == Assign(AssignAll(s, []), args[0]);
  }

  /** The COMPLETED update sets the output path with progress 100 and stamps `completed_at`. */
  lemma SucceedValue(t: Task, out: string, now: Time)
    ensures Succeed(t, out, now) == t.(status := Completed, completedAt := Some(now), result := Some(Output(out, Some(100))))
  {
    var args, s := [SetResult(Some(Output(out, Some(100))))], Stamp(t, Completed, now);
    assert args[..0] == [];
    assert AssignAll(s, args) == Assign(AssignAll(s, []), args[0]);
  }

  /** The RETRYING and FAILED updates record the error and the retry count and reset progress. */
  lemma FailureValue(t: Task, status: TaskStatus, err: string, retryCount: int, now: Time)
    requires status == Retrying || status == Failed
    ensures Updated(t, status, FailureArgs(err, retryCount), now)
         == Stamp(t, status, now).(error := Some(err), retryCount := retryCount, result := Some(Progress(0)))
  {
    var args := FailureArgs(err, retryCount);
    var s := Stamp(t, status, now);
    assert args[..2][..1] == args[..1] && args[..1][..0] == [];
    assert AssignAll(s, args) == Assign(AssignAll(s, args[..2]), args[2]);
    assert AssignAll(s, args[..2]) == Assign(AssignAll(s, args[..1]), args[1]);
    assert AssignAll(s, args[..1]) == Assign(AssignAll(s, []), args[0]);
  }

  /**
   * `AttemptOnce` is what the store's own updates make of the task: the
   * PROCESSING update with progress 0, then the COMPLETED update with the
   * output, or the RETRYING or FAILED update with the error keywords; the
   * hooks are those the two transitions fire.
   */
  lemma AttemptOnceByUpdates(t: Task, outcome: EngineResult, retryCount: nat, now: Time)
    ensures var s := AttemptOnce(t, outcome, retryCount, now);
      && Begin(t, now) == Processing0(t, now)
      && s.task == (match outcome
         case Produced(out) => Succeed(Begin(t, now), out, now)
         case Raised(err) =>
           if retryCount < t.maxRetries then Updated(Begin(t, now), Retrying, FailureArgs(err, retryCount + 1), now)
           else Updated(Begin(t, now), Failed, FailureArgs(err, retryCount), now))
      && s.fired == HooksFired(t.status, Processing, Begin(t, now)) + HooksFired(Processing, s.task.status, s.task)
  {
    BeginValue(t, now);
    match outcome
    case Produced(out) =>
      SucceedValue(Begin(t, now), out, now);
    case Raised(err) =>
      FailureValue(Begin(t, now), Retrying, err, retryCount + 1, now);
      FailureValue(Begin(t, now), Failed, err, retryCount, now);
  }

  /**
   * How many retries the driver schedules from retry count `retryCount`:
   * one per failed attempt while `retry_count < max_retries`.
   */
  function RetriesUsed(attempt: nat -> EngineResult, retryCount: nat, limit: int): nat
    decreases if retryCount < limit then limit - retryCount else 0
  {
    if attempt(retryCount).Produced? || retryCount >= limit then 0
    else 1 + RetriesUsed(attempt, retryCount + 1, limit)
  }

  /**
   * `RetriesUsed` is the least `n` at which the engine succeeds or the limit
   * is reached: every attempt before it raised below the limit.
   */
  lemma {:induction false} RetriesUsedLeast(attempt: nat -> EngineResult, retryCount: nat, limit: int)
    ensures var n := RetriesUsed(attempt, retryCount, limit);
      && (forall j :: retryCount <= j < retryCount + n ==> attempt(j).Raised? && j < limit)
      && (attempt(retryCount + n).Produced? || retryCount + n >= limit)
      && (n > 0 ==> retryCount + n <= limit)
    decreases if retryCount < limit then limit - retryCount else 0
  {
    if !(attempt(retryCount).Produced? || retryCount >= limit) {
      RetriesUsedLeast(attempt, retryCount + 1, limit);
    }
  }

  /**
   * The sleeps of one `process_watermark_task` call, with `n` the retries it
   * makes: `retry_delay * 2 ** k` for each failed attempt `k` in order, and
   * the clock advanced by them.
   */
  lemma {:induction false} RetryRunSchedule(t: Task, attempt: nat -> EngineResult, retryCount: nat, now: Time)
    ensures var r := RetryRun(t, attempt, retryCount, now);
      var n := RetriesUsed(attempt, retryCount, t.maxRetries);
      && r.delays == Backoff(t.retryDelay, retryCount, retryCount + n)
      && r.clock == Slept(now, r.delays)
    decreases if retryCount < t.maxRetries then t.maxRetries - retryCount else 0
  {
    var s := AttemptOnce(t, attempt(retryCount), retryCount, now);
    ScheduleUnfold(t, attempt, retryCount, now);
    if s.Rescheduled? {
      var later := Advance(now, s.delay);
      RetryRunSchedule(s.task, attempt, retryCount + 1, later);
      var m := RetriesUsed(attempt, retryCount + 1, t.maxRetries);
      var rest := RetryRun(s.task, attempt, retryCount + 1, later);
      BackoffSleep(t.retryDelay, retryCount, m, now, rest.delays);
    }
  }

  /** One more leading backoff sleep: the schedule and the clock both extend by it. */
  lemma BackoffSleep(base: int, retryCount: nat, m: nat, now: Time, rest: seq<int>)
    requires rest == Backoff(base, retryCount + 1, retryCount + 1 + m)
    ensures [RetryDelay(base, retryCount)] + rest == Backoff(base, retryCount, retryCount + (1 + m))
    ensures Slept(now, [RetryDelay(base, retryCount)] + rest) == Slept(Advance(now, RetryDelay(base, retryCount)), rest)
  {
    assert retryCount + (1 + m) == retryCount + 1 + m;
    assert ([RetryDelay(base, retryCount)] + rest)[1..] == rest;
  }


  /**
   * One `process_watermark_task` call keeps the task's identity and retry
   * policy, sets `started_at` once (on the first attempt that finds it
   * unset) and sets `completed_at` when it ends.
   */
  lemma {:induction false} RetryRunStamps(t: Task, attempt: nat -> EngineResult, retryCount: nat, now: Time)
    ensures var r := RetryRun(t, attempt, retryCount, now);
      && r.task.taskId == t.taskId && r.task.createdAt == t.createdAt
      && r.task.maxRetries == t.maxRetries && r.task.retryDelay == t.retryDelay
      && r.task.startedAt == (if t.startedAt.Some? then t.startedAt else Some(now))
      && r.task.completedAt == Some(r.clock)
    decreases if retryCount < t.maxRetries then t.maxRetries - retryCount else 0
  {
    var s := AttemptOnce(t, attempt(retryCount), retryCount, now);
    if s.Rescheduled? {
      RetryRunStamps(s.task, attempt, retryCount + 1, Advance(now, s.delay));
    }
  }

  /**
   * A call whose attempts end in success: COMPLETED with the output of the
   * first successful attempt, keeping the error of the attempt before it
   * (nothing clears it) and the retry count that attempt was made at.
   */
  lemma {:induction false} RetryRunCompletes(t: Task, attempt: nat -> EngineResult, retryCount: nat, now: Time)
    ensures var r := RetryRun(t, attempt, retryCount, now);
      var n := RetriesUsed(attempt, retryCount, t.maxRetries);
      var last := attempt(retryCount + n);
      last.Produced? ==>
        && r.task.status == Completed
        && r.task.result == Some(Output(last.outputPath, Some(100)))
        && r.task.retryCount == (if n == 0 then t.retryCount else retryCount + n)
        && (n == 0 ==> r.task.error == t.error)
        && (n > 0 ==> attempt(retryCount + n - 1).Raised? && r.task.error == Some(attempt(retryCount + n - 1).message))
    decreases if retryCount < t.maxRetries then t.maxRetries - retryCount else 0
  {
    var s := AttemptOnce(t, attempt(retryCount), retryCount, now);
    TaskUnfold(t, attempt, retryCount, now);
    if s.Rescheduled? {
      RetryRunCompletes(s.task, attempt, retryCount + 1, Advance(now, s.delay));
      var n := RetriesUsed(attempt, retryCount, t.maxRetries);
      if n == 1 {
        assert retryCount + n - 1 == retryCount;
      }
    }
  }

  /**
   * A call whose attempts all fail: FAILED with the error of the last attempt,
   * made at `retry_count >= max_retries`, and progress reset to 0.
   */
  lemma {:induction false} RetryRunFails(t: Task, attempt: nat -> EngineResult, retryCount: nat, now: Time)
    ensures var r := RetryRun(t, attempt, retryCount, now);
      var n := RetriesUsed(attempt, retryCount, t.maxRetries);
      var last := attempt(retryCount + n);
      last.Raised? ==>
        && r.task.status == Failed
        && r.task.result == Some(Progress(0))
        && r.task.retryCount == retryCount + n
        && r.task.error == Some(last.message)
    decreases if retryCount < t.maxRetries then t.maxRetries - retryCount else 0
  {
    var s := AttemptOnce(t, attempt(retryCount), retryCount, now);
    TaskUnfold(t, attempt, retryCount, now);
    if s.Rescheduled? {
      RetryRunFails(s.task, attempt, retryCount + 1, Advance(now, s.delay));
    }
  }

  lemma RepeatAppend(e: HookEvent, a: nat, b: nat)
    ensures Repeat(e, a) + Repeat(e, b) == Repeat(e, a + b)
  {
  }

  lemma EventsAppend(a: seq<Hook>, b: seq<Hook>)
    ensures Events(a + b) == Events(a) + Events(b)
  {
  }

  /** The hooks one attempt fires: a "start" unless the task already was PROCESSING, then the outcome's own. */
  lemma AttemptOnceHooks(t: Task, outcome: EngineResult, retryCount: nat, now: Time)
    ensures var s := AttemptOnce(t, outcome, retryCount, now);
      var starts := if t.status == Processing then [] else [Start];
      && (s.Rescheduled? ==> Events(s.fired) == starts && s.task.status == Retrying)
      && (s.Finished? ==> Events(s.fired) == starts + [if outcome.Produced? then Complete else Error])
      && (s.Finished? ==> s.fired[|s.fired| - 1].payload == ToDict(s.task))
  {
  }

  /**
   * The hooks of one `process_watermark_task` call, with `n` the retries it
   * makes: a "start" on entering PROCESSING (unless the task already was) and
   * again on every retry, since each retry re-enters PROCESSING from
   * RETRYING; then one "complete" or "error".
   */
  lemma {:induction false} RetryRunHooks(t: Task, attempt: nat -> EngineResult, retryCount: nat, now: Time)
    ensures HooksShape(t, attempt, retryCount, now)
    decreases if retryCount < t.maxRetries then t.maxRetries - retryCount else 0
  {
    var s := AttemptOnce(t, attempt(retryCount), retryCount, now);
    if s.Rescheduled? {
      RetryRunHooks(s.task, attempt, retryCount + 1, Advance(now, s.delay));
    }
    HooksStep(t, attempt, retryCount, now);
  }

  /** One step of `RetryRunHooks`: the first attempt's hooks prefix those of the retries. */
  lemma HooksStep(t: Task, attempt: nat -> EngineResult, retryCount: nat, now: Time)
    requires var s := AttemptOnce(t, attempt(retryCount), retryCount, now);
      s.Rescheduled? ==> HooksShape(s.task, attempt, retryCount + 1, Advance(now, s.delay))
    ensures HooksShape(t, attempt, retryCount, now)
  {
    var s := AttemptOnce(t, attempt(retryCount), retryCount, now);
    var hooks := RetryRun(t, attempt, retryCount, now).hooks;
    var n := RetriesUsed(attempt, retryCount, t.maxRetries);
    HooksUnfold(t, attempt, retryCount, now);
    if s.Rescheduled? {
      var later := Advance(now, s.delay);
      var m := RetriesUsed(attempt, retryCount + 1, t.maxRetries);
      var rest := RetryRun(s.task, attempt, retryCount + 1, later).hooks;
      assert hooks == s.fired + rest && n == m + 1;
      assert retryCount + 1 + m == retryCount + n;
      FiredThenLater(t, attempt(retryCount), retryCount, now, rest, m, attempt(retryCount + n));
    } else {
      assert hooks == s.fired && n == 0;
      FiredOnly(t, attempt(retryCount), retryCount, now);
    }
  }

  /**
   * What a poller reads of a run, write by write: every attempt opens with
   * PROCESSING and progress 0, every attempt but the last closes RETRYING
   * with the retry count it reached, and the last write is the run's final
   * task; a run with `n` retries writes `2 (n + 1)` times.
   */
  lemma RunTasksShape(t: Task, attempt: nat -> EngineResult, retryCount: nat, now: Time)
    ensures var ts := RunTasks(t, attempt, retryCount, now);
      && |ts| == 2 * (RetriesUsed(attempt, retryCount, t.maxRetries) + 1)
      && ts[|ts| - 1] == RetryRun(t, attempt, retryCount, now).task
      && Alternates(ts, retryCount)
      && forall k :: 0 <= k < |ts| && k % 2 == 0 ==> ts[k].result == Some(Progress(0))
  {
    RunTasksEnds(t, attempt, retryCount, now);
    RunTasksAlternate(t, attempt, retryCount, now);
  }

  /** The number of writes of a run and its last write. */
  lemma {:induction false} RunTasksEnds(t: Task, attempt: nat -> EngineResult, retryCount: nat, now: Time)
    ensures var ts := RunTasks(t, attempt, retryCount, now);
      && |ts| == 2 * (RetriesUsed(attempt, retryCount, t.maxRetries) + 1)
      && ts[|ts| - 1] == RetryRun(t, attempt, retryCount, now).task
    decreases if retryCount < t.maxRetries then t.maxRetries - retryCount else 0
  {
    var s := AttemptOnce(t, attempt(retryCount), retryCount, now);
    var ts := RunTasks(t, attempt, retryCount, now);
    TaskUnfold(t, attempt, retryCount, now);
    if s.Rescheduled? {
      var later := Advance(now, s.delay);
      var rest := RunTasks(s.task, attempt, retryCount + 1, later);
      RunTasksEnds(s.task, attempt, retryCount + 1, later);
      assert ts == [Processing0(t, now), s.task] + rest;
    } else {
      assert ts == [Processing0(t, now), s.task];
    }
  }

  /** The writes of a run alternate between opening an attempt at progress 0 and retrying it. */
  lemma {:induction false} RunTasksAlternate(t: Task, attempt: nat -> EngineResult, retryCount: nat, now: Time)
    ensures var ts := RunTasks(t, attempt, retryCount, now);
      && Alternates(ts, retryCount)
      && forall k :: 0 <= k < |ts| && k % 2 == 0 ==> ts[k].result == Some(Progress(0))
    decreases if retryCount < t.maxRetries then t.maxRetries - retryCount else 0
  {
    var s := AttemptOnce(t, attempt(retryCount), retryCount, now);
    var ts := RunTasks(t, attempt, retryCount, now);
    if s.Rescheduled? {
      var later := Advance(now, s.delay);
      var rest := RunTasks(s.task, attempt, retryCount + 1, later);
      RunTasksAlternate(s.task, attempt, retryCount + 1, later);
      assert ts == [Processing0(t, now), s.task] + rest;
      AlternatesCons(Processing0(t, now), s.task, rest, retryCount);
      forall k | 2 <= k < |ts| && k % 2 == 0
        ensures ts[k].result == Some(Progress(0))
      {
        assert ts[k] == rest[k - 2] && (k - 2) % 2 == 0;
      }
    } else {
      assert ts == [Processing0(t, now), s.task];
    }
  }

  /** Whether an attempt's task fires "start": unless it already was PROCESSING. */
  function StartCount(t: Task): nat
  {
    if t.status == Processing then 0 else 1
  }

  /** The hook that closes a call, by the last attempt's outcome. */
  function LastEvent(outcome: EngineResult): HookEvent
  {
    if outcome.Produced? then Complete else Error
  }

  /**
   * The events of one call, with `n` the retries it makes: `n` "start" hooks,
   * one more unless the task already was PROCESSING, then "complete" or
   * "error" for the last attempt.
   */
  predicate HooksShape(t: Task, attempt: nat -> EngineResult, retryCount: nat, now: Time)
  {
    var n := RetriesUsed(attempt, retryCount, t.maxRetries);
    Events(RetryRun(t, attempt, retryCount, now).hooks) == Repeat(Start, n + StartCount(t)) + [LastEvent(attempt(retryCount + n))]
  }

  /** How `RetryRun` unfolds on the first attempt. */
  lemma RetryRunUnfold(t: Task, attempt: nat -> EngineResult, retryCount: nat, now: Time)
    ensures var s := AttemptOnce(t, attempt(retryCount), retryCount, now);
      && (s.Finished? ==> RetryRun(t, attempt, retryCount, now) == Run(s.task, [], s.fired, now))
      && (s.Rescheduled? ==>
            var rest := RetryRun(s.task, attempt, retryCount + 1, Advance(now, s.delay));
            RetryRun(t, attempt, retryCount, now) == Run(rest.task, [s.delay] + rest.delays, s.fired + rest.hooks, rest.clock))
  {
  }

  /** How the sleeps and the clock of `RetryRun` and `RetriesUsed` unfold on the first attempt. */
  lemma ScheduleUnfold(t: Task, attempt: nat -> EngineResult, retryCount: nat, now: Time)
    ensures var s := AttemptOnce(t, attempt(retryCount), retryCount, now);
      var r := RetryRun(t, attempt, retryCount, now);
      && (s.Finished? ==> r.delays == [] && r.clock == now && RetriesUsed(attempt, retryCount, t.maxRetries) == 0)
      && (s.Rescheduled? ==>
            var rest := RetryRun(s.task, attempt, retryCount + 1, Advance(now, s.delay));
            && r.delays == [s.delay] + rest.delays && r.clock == rest.clock
            && RetriesUsed(attempt, retryCount, t.maxRetries) == 1 + RetriesUsed(attempt, retryCount + 1, t.maxRetries))
  {
  }

  /** How the final task of `RetryRun` and `RetriesUsed` unfold on the first attempt. */
  lemma TaskUnfold(t: Task, attempt: nat -> EngineResult, retryCount: nat, now: Time)
    ensures var s := AttemptOnce(t, attempt(retryCount), retryCount, now);
      var r := RetryRun(t, attempt, retryCount, now);
      && (s.Finished? ==> r.task == s.task && RetriesUsed(attempt, retryCount, t.maxRetries) == 0)
      && (s.Rescheduled? ==>
            && r.task == RetryRun(s.task, attempt, retryCount + 1, Advance(now, s.delay)).task
            && RetriesUsed(attempt, retryCount, t.maxRetries) == 1 + RetriesUsed(attempt, retryCount + 1, t.maxRetries))
  {
  }

  /** How the hooks of `RetryRun` and `RetriesUsed` unfold on the first attempt. */
  lemma HooksUnfold(t: Task, attempt: nat -> EngineResult, retryCount: nat, now: Time)
    ensures var s := AttemptOnce(t, attempt(retryCount), retryCount, now);
      && (s.Finished? ==> RetryRun(t, attempt, retryCount, now).hooks == s.fired
                          && RetriesUsed(attempt, retryCount, t.maxRetries) == 0)
      && (s.Rescheduled? ==>
            && RetryRun(t, attempt, retryCount, now).hooks
               == s.fired + RetryRun(s.task, attempt, retryCount + 1, Advance(now, s.delay)).hooks
            && RetriesUsed(attempt, retryCount, t.maxRetries) == 1 + RetriesUsed(attempt, retryCount + 1, t.maxRetries))
  {
  }

  /** A final attempt fires its "start", if any, and the closing hook. */
  lemma FiredOnly(t: Task, outcome: EngineResult, retryCount: nat, now: Time)
    requires AttemptOnce(t, outcome, retryCount, now).Finished?
    ensures Events(AttemptOnce(t, outcome, retryCount, now).fired) == Repeat(Start, 0 + StartCount(t)) + [LastEvent(outcome)]
  {
    AttemptOnceHooks(t, outcome, retryCount, now);
  }

  /** A rescheduled attempt's "start", if any, comes before the hooks of the retries. */
  lemma FiredThenLater(t: Task, outcome: EngineResult, retryCount: nat, now: Time, later: seq<Hook>, m: nat, last: EngineResult)
    requires AttemptOnce(t, outcome, retryCount, now).Rescheduled?
    requires Events(later) == Repeat(Start, m + StartCount(AttemptOnce(t, outcome, retryCount, now).task)) + [LastEvent(last)]
    ensures Events(AttemptOnce(t, outcome, retryCount, now).fired + later) == Repeat(Start, (m + 1) + StartCount(t)) + [LastEvent(last)]
  {
    var s := AttemptOnce(t, outcome, retryCount, now);
    AttemptOnceHooks(t, outcome, retryCount, now);
    HooksConcat(s.fired, later, StartCount(t), m + 1, LastEvent(last));
  }

  /** Starts followed by a run of starts and a last event. */
  lemma HooksConcat(fired: seq<Hook>, later: seq<Hook>, starts: nat, m: nat, last: HookEvent)
    requires starts <= 1 && Events(fired) == (if starts == 0 then [] else [Start])
    requires Events(later) == Repeat(Start, m) + [last]
    ensures Events(fired + later) == Repeat(Start, m + starts) + [last]
  {
    EventsAppend(fired, later);
    assert Events(fired) == Repeat(Start, starts);
    RepeatAppend(Start, starts, m);
  }

  /** The last hook of one `process_watermark_task` call carries the final task. */
  lemma {:induction false} RetryRunLastHook(t: Task, attempt: nat -> EngineResult, retryCount: nat, now: Time)
    ensures var r := RetryRun(t, attempt, retryCount, now);
      r.hooks != [] && r.hooks[|r.hooks| - 1].payload == ToDict(r.task)
    decreases if retryCount < t.maxRetries then t.maxRetries - retryCount else 0
  {
    var s := AttemptOnce(t, attempt(retryCount), retryCount, now);
    AttemptOnceHooks(t, attempt(retryCount), retryCount, now);
    if s.Rescheduled? {
      RetryRunLastHook(s.task, attempt, retryCount + 1, Advance(now, s.delay));
    }
  }

  /** When every attempt raises, the driver retries until `retry_count` reaches `max_retries`. */
  lemma {:induction false} RetriesUsedAllFail(attempt: nat -> EngineResult, retryCount: nat, limit: int)
    requires forall j: nat :: attempt(j).Raised?
    ensures RetriesUsed(attempt, retryCount, limit) == if retryCount < limit then limit - retryCount else 0
    decreases if retryCount < limit then limit - retryCount else 0
  {
    if retryCount < limit {
      RetriesUsedAllFail(attempt, retryCount + 1, limit);
    }
  }

  /**
   * An engine that always raises: the task ends FAILED with the last error and
   * `retry_count == max_retries` (or the starting count, if already past it),
   * after one backoff sleep per retry and one "start" per attempt.
   */
  lemma RetryRunAlwaysFails(t: Task, attempt: nat -> EngineResult, retryCount: nat, now: Time)
    requires forall j: nat :: attempt(j).Raised?
    ensures var r := RetryRun(t, attempt, retryCount, now);
      var n := if retryCount < t.maxRetries then t.maxRetries - retryCount else 0;
      && r.task.status == Failed
      && r.task.retryCount == retryCount + n
      && r.task.error == Some(attempt(retryCount + n).message)
      && r.delays == Backoff(t.retryDelay, retryCount, retryCount + n)
      && Events(r.hooks) == Repeat(Start, n + (if t.status == Processing then 0 else 1)) + [Error]
  {
    RetriesUsedAllFail(attempt, retryCount, t.maxRetries);
    RetryRunFails(t, attempt, retryCount, now);
    RetryRunSchedule(t, attempt, retryCount, now);
    RetryRunHooks(t, attempt, retryCount, now);
  }

  /**
   * A fresh task with the default policy (3 retries, 5 seconds) whose engine
   * always raises: sleeps of 5, 10 and 20 seconds, four "start" hooks and one
   * "error", and a FAILED task with `retry_count` 3, completed 35 seconds later.
   */
  lemma DefaultPolicyExhausted(id: TaskId, now: Time, err: string)
    ensures var attempt := (j: nat) => Raised(err);
      var r := RetryRun(NewTask(id, now, 3, 5), attempt, 0, now);
      && r.delays == [5, 10, 20]
      && r.task.status == Failed && r.task.retryCount == 3 && r.task.error == Some(err)
      && Events(r.hooks) == [Start, Start, Start, Start, Error]
      && r.task.completedAt == Some(now + 35)
  {
    var attempt := (j: nat) => Raised(err);
    var t := NewTask(id, now, 3, 5);
    RetryRunAlwaysFails(t, attempt, 0, now);
    RetryRunStamps(t, attempt, 0, now);
    RetryRunSchedule(t, attempt, 0, now);
    var r := RetryRun(t, attempt, 0, now);
    assert Backoff(5, 0, 3) == [5, 10, 20];
    assert Slept(now, [5, 10, 20]) == now + 35;
  }

  /** The PROCESSING update that opens a batch: the empty report with progress 0. */
  function BeginBatch(t: Task, files: seq<string>, now: Time): Task
  {
    Updated(t, Processing, [SetResult(Some(BatchReport(|files|, [], [], 0)))], now)
  }

  /** The opening update stamps `started_at` on the first run only and stores the empty report. */
  lemma BeginBatchValue(t: Task, files: seq<string>, now: Time)
    ensures BeginBatch(t, files, now) == Stamp(t, Processing, now).(result := Some(BatchReport(|files|, [], [], 0)))
  {
    var args, s := [SetResult(Some(BatchReport(|files|, [], [], 0)))], Stamp(t, Processing, now);
    assert args[..0] == [];
    assert AssignAll(s, args) == Assign(AssignAll(s, []), args[0]);
  }

  /** A PROCESSING update of a task already PROCESSING and started only replaces its result, firing nothing. */
  lemma ProgressUpdate(t: Task, report: Payload, now: Time)
    requires t.status == Processing && t.startedAt.Some?
    ensures Updated(t, Processing, [SetResult(Some(report))], now) == t.(result := Some(report))
    ensures HooksFired(Processing, Processing, t.(result := Some(report))) == []
  {
    var args := [SetResult(Some(report))];
    assert args[..0] == [];
    assert AssignAll(t, args) == Assign(AssignAll(t, []), args[0]);
  }

  /** The COMPLETED update sets the result and stamps `completed_at`, whatever result it replaces. */
  lemma CompleteUpdate(t: Task, report: Payload, now: Time)
    ensures Updated(t, Completed, [SetResult(Some(report))], now)
         == t.(status := Completed, completedAt := Some(now), result := Some(report))
  {
    var args := [SetResult(Some(report))];
    var s := Stamp(t, Completed, now);
    assert args[..0] == [];
    assert AssignAll(s, args) == Assign(AssignAll(s, []), args[0]);
  }

  /**
   * The per-file PROCESSING update of `process_batch_task` on a task already
   * PROCESSING and started: only its result changes, and no hook fires.
   */
  method SetProgress(store: TaskManager, id: TaskId, report: Payload, now: Time)
    requires id in store.tasks && store.tasks[id].status == Processing && store.tasks[id].startedAt.Some?
    modifies store
    ensures var after := old(store.tasks)[id].(result := Some(report));
      && store.tasks == old(store.tasks)[id := after]
      && store.hooks == old(store.hooks)
      && store.updates == old(store.updates) + [(id, after)]
  {
    ProgressUpdate(store.tasks[id], report, now);
    var _ := store.UpdateTaskStatus(id, Processing, [SetResult(Some(report))], now);
  }

  /**
   * The loop of `process_batch_task` over the files: each file's entry goes
   * to `processed` or `skipped` and the report after it is written as the
   * task's result, with no hook fired: the writes are `ProgressTasks`, one
   * per file, in order.
   */
  method WalkFiles(store: TaskManager, id: TaskId, files: seq<string>, outcome: nat -> EngineResult, now: Time)
    returns (processed: seq<Processed>, skipped: seq<Skipped>)
    requires id in store.tasks && store.tasks[id].status == Processing && store.tasks[id].startedAt.Some?
    requires store.tasks[id].result == Some(BatchReport(|files|, [], [], 0))
    modifies store
    ensures processed == ProcessedOf(files, outcome) && skipped == SkippedOf(files, outcome)
    ensures store.tasks == old(store.tasks)[id := old(store.tasks)[id].(result := Some(BatchReports(files, outcome)[|files|]))]
    ensures store.hooks == old(store.hooks)
    ensures store.updates == old(store.updates) + WritesTo(id, ProgressTasks(old(store.tasks)[id], files, outcome))
  {
    ghost var started := store.tasks[id];
    ghost var reports := BatchReports(files, outcome);
    ghost var written := ProgressTasks(started, files, outcome);
    processed, skipped := [], [];
    var idx := 0;
    while idx < |files|
      invariant 0 <= idx <= |files|
      invariant processed == ProcessedOf(files[..idx], outcome) && skipped == SkippedOf(files[..idx], outcome)
      invariant store.tasks == old(store.tasks)[id := started.(result := Some(reports[idx]))]
      invariant store.hooks == old(store.hooks)
      invariant store.updates == old(store.updates) + WritesTo(id, written[..idx])
    {
      ReportNext(files, outcome, idx);
      ProgressTasksNext(id, started, files, outcome, idx);
      var report;
      processed, skipped, report := RecordFile(files, outcome, idx, processed, skipped);
      assert report == reports[idx + 1] by {
        assert reports[..idx + 2][idx + 1] == reports[idx + 1];
      }
      SetProgress(store, id, report, now);
      idx := idx + 1;
    }
    assert files[..idx] == files && written[..idx] == written;
  }

  /** The opening PROCESSING update of `process_batch_task`, with the empty report. */
  method OpenBatch(store: TaskManager, id: TaskId, files: seq<string>, now: Time)
    requires id in store.tasks
    modifies store
    ensures var started := BeginBatch(old(store.tasks)[id], files, now);
      && started.status == Processing && started.startedAt.Some?
      && started.result == Some(BatchReport(|files|, [], [], 0))
      && store.tasks == old(store.tasks)[id := started]
      && store.hooks == old(store.hooks) + HooksFired(old(store.tasks)[id].status, Processing, started)
      && store.updates == old(store.updates) + [(id, started)]
  {
    BeginBatchValue(store.tasks[id], files, now);
    var _ := store.UpdateTaskStatus(id, Processing, [SetResult(Some(BatchReport(|files|, [], [], 0)))], now);
  }

  /** The closing COMPLETED update of `process_batch_task`, with the final report. */
  method CloseBatch(store: TaskManager, id: TaskId, report: Payload, now: Time)
    requires id in store.tasks
    modifies store
    ensures var done := old(store.tasks)[id].(status := Completed, completedAt := Some(now), result := Some(report));
      && store.tasks == old(store.tasks)[id := done]
      && store.hooks == old(store.hooks) + HooksFired(old(store.tasks)[id].status, Completed, done)
      && store.updates == old(store.updates) + [(id, done)]
  {
    CompleteUpdate(store.tasks[id], report, now);
    var _ := store.UpdateTaskStatus(id, Completed, [SetResult(Some(report))], now);
  }

  /**
   * `process_batch_task`: a missing task makes it a no-op. Otherwise every
   * file is attempted in order (`outcome(i)` is the engine's answer for
   * `files[i]`); the store is written once to open the batch, once after
   * each file (`ProgressTasks`) and once to close it COMPLETED with the
   * final report, and only the opening "start" (unless the task already was
   * PROCESSING) and the closing "complete" hook fire: the per-file
   * PROCESSING updates fire nothing.
   */
  method ProcessBatchTask(store: TaskManager, id: TaskId, files: seq<string>, outcome: nat -> EngineResult, now: Time)
    modifies store
    ensures id !in old(store.tasks) ==>
      store.tasks == old(store.tasks) && store.hooks == old(store.hooks) && store.updates == old(store.updates)
    ensures id in old(store.tasks) ==>
      var started := BeginBatch(old(store.tasks)[id], files, now);
      var done := started.(status := Completed, completedAt := Some(now), result := Some(FinalReport(files, outcome)));
      && store.tasks == old(store.tasks)[id := done]
      && store.hooks == old(store.hooks) + HooksFired(old(store.tasks)[id].status, Processing, started)
                                         + HooksFired(Processing, Completed, done)
      && store.updates == old(store.updates) + WritesTo(id, [started] + ProgressTasks(started, files, outcome) + [done])
  {
    var found := store.GetTask(id);
    if found.None? {
      return;
    }
    OpenBatch(store, id, files, now);
    ghost var started := store.tasks[id];
    var processed, skipped := WalkFiles(store, id, files, outcome, now);
    var final := BatchReport(|files|, processed, skipped, 100);
    CloseBatch(store, id, final, now);
    ghost var done := store.tasks[id];
    ghost var written := ProgressTasks(started, files, outcome);
    WritesToAppend(id, [started] + written, [done]);
    WritesToAppend(id, [started], written);
    assert WritesTo(id, [started]) == [(id, started)] && WritesTo(id, [done]) == [(id, done)];
  }
}
