/**
 * The older copy of the task bookkeeping in src/watermarker/main.py: the same
 * `Task` record and update rule, but no lifecycle hooks, `to_dict` returns the
 * raw result, the PROCESSING update of the single-file driver sets no result,
 * a success stores only the output path and a failure leaves the result
 * alone. The lemmas at the end compare both drivers with those of `Tasks`.
 */
module LegacyTasks {
  import opened Wrappers
  import opened MediaEngine
  import opened TaskModel
  import Tasks

  /** `Task.to_dict()` of this copy: a missing result reads as JSON `null`. */
  function ToDict(t: Task): Snapshot
  {
    Snapshot(t.taskId, t.status, t.createdAt, t.startedAt, t.completedAt,
             if t.result.Some? then Object(t.result.value) else Null,
             t.error, t.retryCount, t.maxRetries)
  }

  /** The two `to_dict` methods agree except on a task with no result, which reads `null` here and `{}` there. */
  lemma ToDictAgrees(t: Task)
    ensures t.result.Some? <==> ToDict(t) == Tasks.ToDict(t)
    ensures t.result.None? ==> ToDict(t).result == Null && Tasks.ToDict(t).result == EmptyObject
    ensures ToDict(t).(result := Null) == Tasks.ToDict(t).(result := Null)
  {
  }

  class TaskManager {
    /** `tasks_db` */
    var tasks: map<TaskId, Task>
    /** Every write of `update_task_status` so far, in order: the id and the task stored under it. */
    ghost var updates: seq<(TaskId, Task)>

    constructor ()
      ensures tasks == map[] && updates == []
    {
      tasks := map[];
      updates := [];
    }

    /** `create_task`: a PENDING task with no retries yet, stored under the fresh `id`. */
    method CreateTask(id: TaskId, now: Time, maxRetries: int, retryDelay: int) returns (task: Task)
      modifies this
      ensures task == NewTask(id, now, maxRetries, retryDelay)
      ensures task.status == Pending && task.retryCount == 0 && task.taskId == id
      ensures tasks == old(tasks)[id := task] && updates == old(updates)
    {
      task := NewTask(id, now, maxRetries, retryDelay);
      tasks := tasks[id := task];
    }

    /** `get_task`: the stored task, `None` for an unknown id. */
    function GetTask(id: TaskId): (r: Option<Task>)
      reads this
      ensures r.Some? <==> id in tasks
      ensures r.Some? ==> r.value == tasks[id]
    {
      if id in tasks then Some(tasks[id]) else None
    }

    /**
     * `update_task_status`: an unknown id changes nothing and gives `None`;
     * otherwise only this task changes, to `Updated(...)`, and the write is
     * logged in `updates`.
     */
    method UpdateTaskStatus(id: TaskId, status: TaskStatus, kwargs: seq<Assignment>, now: Time)
      returns (r: Option<Task>)
      modifies this
      ensures id !in old(tasks) ==> r == None && tasks == old(tasks) && updates == old(updates)
      ensures id in old(tasks) ==>
        && r == Some(Updated(old(tasks)[id], status, kwargs, now))
        && tasks == old(tasks)[id := r.value]
        && updates == old(updates) + [(id, r.value)]
    {
      if id !in tasks {
        return None;
      }
      var stamped := Stamp(tasks[id], status, now);
      var task := stamped;
      for k := 0 to |kwargs|
        invariant task == AssignAll(stamped, kwargs[..k])
      {
        assert kwargs[..k + 1][..k] == kwargs[..k];
        task := Assign(task, kwargs[k]);
      }
      assert kwargs[..|kwargs|] == kwargs;
      tasks := tasks[id := task];
      updates := updates + [(id, task)];
      r := Some(task);
    }

    /**
     * `cleanup_old_tasks`: lists the ids of the tasks completed before
     * `now - hours`, deletes them, and returns how many there were.
     */
    method CleanupOldTasks(hours: int, now: Time) returns (removed: nat)
      modifies this
      ensures tasks == Swept(old(tasks), Cutoff(now, hours))
      ensures removed == |ExpiredIds(old(tasks), Cutoff(now, hours))| == |old(tasks)| - |tasks|
      ensures updates == old(updates)
    {
      var cutoff := Cutoff(now, hours);
      var toDelete := ListExpired(cutoff);
      DistinctCard(toDelete);
      DeleteAll(toDelete);
      ghost var m := old(tasks);
      forall id
        ensures id in tasks <==> id in m && !Expired(m[id], cutoff)
      {
        assert id in toDelete <==> id in (set x | x in toDelete);
        assert id in ExpiredIds(m, cutoff) <==> id in m && Expired(m[id], cutoff);
      }
      assert tasks == Swept(m, cutoff);
      SweptSize(old(tasks), cutoff);
      removed := |toDelete|;
    }

    /**
     * The first loop of `cleanup_old_tasks`: the ids of the tasks completed
     * before `cutoff`, each listed once.
     */
    method ListExpired(cutoff: Time) returns (toDelete: seq<TaskId>)
      ensures forall i, j :: 0 <= i < j < |toDelete| ==> toDelete[i] != toDelete[j]
      ensures (set x | x in toDelete) == ExpiredIds(tasks, cutoff)
    {
      toDelete := [];
      var unseen := tasks.Keys;
      while unseen != {}
        invariant unseen <= tasks.Keys
        invariant forall i, j :: 0 <= i < j < |toDelete| ==> toDelete[i] != toDelete[j]
        invariant forall i :: 0 <= i < |toDelete| ==> toDelete[i] !in unseen
        invariant (set x | x in toDelete)
               == (set id | id in tasks.Keys - unseen && Expired(tasks[id], cutoff))
        decreases unseen
      {
        var id :| id in unseen;
        ghost var listed := set x | x in toDelete;
        if Expired(tasks[id], cutoff) {
          toDelete := toDelete + [id];
          assert (set x | x in toDelete) == listed + {id};
        }
        unseen := unseen - {id};
      }
    }

    /** The second loop of `cleanup_old_tasks`: `del tasks_db[task_id]` for each listed id. */
    method DeleteAll(ids: seq<TaskId>)
      modifies this
      ensures tasks == map id | id in old(tasks) && id !in ids :: old(tasks)[id]
      ensures updates == old(updates)
    {
      for k := 0 to |ids|
        invariant tasks == map id | id in old(tasks) && id !in ids[..k] :: old(tasks)[id]
        invariant updates == old(updates)
      {
        tasks := map i | i in tasks && i != ids[k] :: tasks[i];
        assert forall id :: id in ids[..k + 1] <==> id in ids[..k] || id == ids[k];
      }
      assert ids[..|ids|] == ids;
    }
  }

  /** A list without repetitions has as many elements as its set. */
  lemma {:induction false} DistinctCard<T>(s: seq<T>)
    requires forall i, j :: 0 <= i < j < |s| ==> s[i] != s[j]
    ensures |set x | x in s| == |s|
  {
    if s != [] {
      var init := s[..|s| - 1];
      DistinctCard(init);
      assert (set x | x in s) == (set x | x in init) + {s[|s| - 1]};
    }
  }

  /** What one attempt of this copy's `process_watermark_task` leaves behind. */
  datatype Step = Finished(task: Task) | Rescheduled(task: Task, delay: int)

  /** The effect of one `process_watermark_task` call and of the retries it schedules. */
  datatype Run = Run(task: Task, delays: seq<int>, clock: Time)

  /**
   * One attempt of this copy, field by field: mark the task PROCESSING
   * without touching its result; on success COMPLETED with only the output
   * path; on failure RETRYING with the error and the next retry count while
   * `retry_count < max_retries`, else FAILED; the result is left as it was.
   * `AttemptOnceByUpdates` shows this is what the store's updates give.
   */
  function AttemptOnce(t: Task, outcome: EngineResult, retryCount: nat, now: Time): (s: Step)
    ensures s.Rescheduled? <==> outcome.Raised? && retryCount < t.maxRetries
    ensures s.Rescheduled? ==> s.delay == RetryDelay(t.retryDelay, retryCount)
    ensures s.task.maxRetries == t.maxRetries && s.task.retryDelay == t.retryDelay
  {
    var processing := Stamp(t, Processing, now);
    match outcome
    case Produced(out) =>
      Finished(processing.(status := Completed, completedAt := Some(now), result := Some(Output(out, None))))
    case Raised(err) =>
      if retryCount < t.maxRetries then
        Rescheduled(processing.(status := Retrying, error := Some(err), retryCount := retryCount + 1),
                    RetryDelay(t.retryDelay, retryCount))
      else
        Finished(processing.(status := Failed, completedAt := Some(now), error := Some(err), retryCount := retryCount))
  }

  /** The keywords of this copy's RETRYING and FAILED updates. */
  function FailureArgs(err: string, retryCount: int): seq<Assignment>
  {
    [SetError(Some(err)), SetRetryCount(retryCount)]
  }

  /**
   * `AttemptOnce` is what this copy's store updates make of the task: the
   * bare PROCESSING update, then the COMPLETED update with the output path,
   * or the RETRYING or FAILED update with the error keywords.
   */
  lemma AttemptOnceByUpdates(t: Task, outcome: EngineResult, retryCount: nat, now: Time)
    ensures var processing := Updated(t, Processing, [], now);
      && processing == Stamp(t, Processing, now)
      && AttemptOnce(t, outcome, retryCount, now).task == (match outcome
         case Produced(out) => Updated(processing, Completed, [SetResult(Some(Output(out, None)))], now)
         case Raised(err) =>
           if retryCount < t.maxRetries then Updated(processing, Retrying, FailureArgs(err, retryCount + 1), now)
           else Updated(processing, Failed, FailureArgs(err, retryCount), now))
  {
    var processing := Stamp(t, Processing, now);
    match outcome
    case Produced(out) =>
      var args := [SetResult(Some(Output(out, None)))];
      var st := Stamp(processing, Completed, now);
      assert args[..0] == [];
      assert AssignAll(st, args) == Assign(AssignAll(st, []), args[0]);
    case Raised(err) =>
      var status := if retryCount < t.maxRetries then Retrying else Failed;
      var args := FailureArgs(err, if retryCount < t.maxRetries then retryCount + 1 else retryCount);
      var st := Stamp(processing, status, now);
      assert args[..1][..0] == [] && args[..|args| - 1] == args[..1];
      assert AssignAll(st, args) == Assign(AssignAll(st, args[..1]), args[1]);
      assert AssignAll(st, args[..1]) == Assign(AssignAll(st, []), args[0]);
  }

  /** `process_watermark_task` of this copy, by recursion like the source. */
  function RetryRun(t: Task, attempt: nat -> EngineResult, retryCount: nat, now: Time): Run
    decreases if retryCount < t.maxRetries then t.maxRetries - retryCount else 0
  {
    match AttemptOnce(t, attempt(retryCount), retryCount, now)
    case Finished(task) => Run(task, [], now)
    case Rescheduled(task, delay) =>
      var rest := RetryRun(task, attempt, retryCount + 1, Advance(now, delay));
      Run(rest.task, [delay] + rest.delays, rest.clock)
  }

  /**
   * The tasks this copy's `process_watermark_task` and its retries store, in
   * order: each attempt's bare PROCESSING update, then its COMPLETED,
   * RETRYING or FAILED one.
   */
  function RunTasks(t: Task, attempt: nat -> EngineResult, retryCount: nat, now: Time): seq<Task>
    decreases if retryCount < t.maxRetries then t.maxRetries - retryCount else 0
  {
    var s := AttemptOnce(t, attempt(retryCount), retryCount, now);
    [Stamp(t, Processing, now), s.task]
      + (if s.Rescheduled? then RunTasks(s.task, attempt, retryCount + 1, Advance(now, s.delay)) else [])
  }

  /** How `RetryRun`, `RetriesUsed` and the retried task unfold on the first attempt. */
  lemma RunUnfold(t: Task, attempt: nat -> EngineResult, retryCount: nat, now: Time)
    ensures var s := AttemptOnce(t, attempt(retryCount), retryCount, now);
      var r := RetryRun(t, attempt, retryCount, now);
      && (s.Finished? ==> r.task == s.task && Tasks.RetriesUsed(attempt, retryCount, t.maxRetries) == 0)
      && (s.Rescheduled? ==>
            && r.task == RetryRun(s.task, attempt, retryCount + 1, Advance(now, s.delay)).task
            && Tasks.RetriesUsed(attempt, retryCount, t.maxRetries) == 1 + Tasks.RetriesUsed(attempt, retryCount + 1, t.maxRetries)
            && s.task.status == Retrying && s.task.retryCount == retryCount + 1)
  {
  }

  /**
   * The writes of a run of this copy alternate like those of `Tasks`: every
   * attempt opens with PROCESSING, every attempt but the last closes
   * RETRYING with the retry count it reached, and the last write is the
   * run's final task.
   */
  lemma RunTasksShape(t: Task, attempt: nat -> EngineResult, retryCount: nat, now: Time)
    ensures var ts := RunTasks(t, attempt, retryCount, now);
      && |ts| == 2 * (Tasks.RetriesUsed(attempt, retryCount, t.maxRetries) + 1)
      && ts[|ts| - 1] == RetryRun(t, attempt, retryCount, now).task
      && Alternates(ts, retryCount)
  {
    RunTasksEnds(t, attempt, retryCount, now);
    RunTasksAlternate(t, attempt, retryCount, now);
  }

  /** The number of writes of a run and its last write. */
  lemma {:induction false} RunTasksEnds(t: Task, attempt: nat -> EngineResult, retryCount: nat, now: Time)
    ensures var ts := RunTasks(t, attempt, retryCount, now);
      && |ts| == 2 * (Tasks.RetriesUsed(attempt, retryCount, t.maxRetries) + 1)
      && ts[|ts| - 1] == RetryRun(t, attempt, retryCount, now).task
    decreases if retryCount < t.maxRetries then t.maxRetries - retryCount else 0
  {
    var s := AttemptOnce(t, attempt(retryCount), retryCount, now);
    var ts := RunTasks(t, attempt, retryCount, now);
    RunUnfold(t, attempt, retryCount, now);
    if s.Rescheduled? {
      var later := Advance(now, s.delay);
      var rest := RunTasks(s.task, attempt, retryCount + 1, later);
      RunTasksEnds(s.task, attempt, retryCount + 1, later);
      assert ts == [Stamp(t, Processing, now), s.task] + rest;
    } else {
      assert ts == [Stamp(t, Processing, now), s.task];
    }
  }

  /** The writes of a run alternate between opening and retrying an attempt. */
  lemma {:induction false} RunTasksAlternate(t: Task, attempt: nat -> EngineResult, retryCount: nat, now: Time)
    ensures Alternates(RunTasks(t, attempt, retryCount, now), retryCount)
    decreases if retryCount < t.maxRetries then t.maxRetries - retryCount else 0
  {
    var s := AttemptOnce(t, attempt(retryCount), retryCount, now);
    var ts := RunTasks(t, attempt, retryCount, now);
    RunUnfold(t, attempt, retryCount, now);
    if s.Rescheduled? {
      var later := Advance(now, s.delay);
      var rest := RunTasks(s.task, attempt, retryCount + 1, later);
      RunTasksAlternate(s.task, attempt, retryCount + 1, later);
      assert ts == [Stamp(t, Processing, now), s.task] + rest;
      AlternatesCons(Stamp(t, Processing, now), s.task, rest, retryCount);
    } else {
      assert ts == [Stamp(t, Processing, now), s.task];
    }
  }

  /**
   * `process_watermark_task` of this copy, recursive like the source: a
   * missing task makes it a no-op; otherwise it leaves the store as `RetryRun`
   * describes and returns the backoff sleeps in order.
   */
  method ProcessWatermarkTask(store: TaskManager, id: TaskId, attempt: nat -> EngineResult, retryCount: nat, now: Time)
    returns (delays: seq<int>)
    modifies store
    ensures id !in old(store.tasks) ==> store.tasks == old(store.tasks) && store.updates == old(store.updates) && delays == []
    ensures id in old(store.tasks) ==>
      var run := RetryRun(old(store.tasks)[id], attempt, retryCount, now);
      && store.tasks == old(store.tasks)[id := run.task] && delays == run.delays
      && store.updates == old(store.updates) + WritesTo(id, RunTasks(old(store.tasks)[id], attempt, retryCount, now))
    decreases if id in store.tasks && retryCount < store.tasks[id].maxRetries then store.tasks[id].maxRetries - retryCount else 0
  {
    var found := store.GetTask(id);
    if found.None? {
      return [];
    }
    var task := found.value;
    ghost var step := AttemptOnce(task, attempt(retryCount), retryCount, now);
    var retry := Attempt(store, id, attempt(retryCount), retryCount, now);
    if retry {
      var delay := RetryDelay(task.retryDelay, retryCount);
      ghost var mid := store.tasks;
      ghost var rest := RetryRun(step.task, attempt, retryCount + 1, Advance(now, delay));
      ghost var written := RunTasks(step.task, attempt, retryCount + 1, Advance(now, delay));
      var later := ProcessWatermarkTask(store, id, attempt, retryCount + 1, Advance(now, delay));
      delays := [delay] + later;
      assert store.tasks == mid[id := rest.task] == old(store.tasks)[id := rest.task];
      Tasks.AttemptWrites(id, Stamp(task, Processing, now), step.task, written);
    } else {
      delays := [];
      Tasks.AttemptWrites(id, Stamp(task, Processing, now), step.task, []);
    }
  }

  /**
   * The body of this copy's `try` block and its `except`: the bare
   * PROCESSING update, the engine's answer `outcome`, then the COMPLETED
   * update or `RecordFailure`. It leaves the task as `AttemptOnce` describes
   * and tells whether the caller sleeps and retries.
   */
  method Attempt(store: TaskManager, id: TaskId, outcome: EngineResult, retryCount: nat, now: Time) returns (retry: bool)
    requires id in store.tasks
    modifies store
    ensures var step := AttemptOnce(old(store.tasks)[id], outcome, retryCount, now);
      && (retry <==> step.Rescheduled?) && store.tasks == old(store.tasks)[id := step.task]
      && store.updates == old(store.updates) + [(id, Stamp(old(store.tasks)[id], Processing, now)), (id, step.task)]
  {
    var task := store.tasks[id];
    ghost var step := AttemptOnce(task, outcome, retryCount, now);
    AttemptOnceByUpdates(task, outcome, retryCount, now);
    var _ := store.UpdateTaskStatus(id, Processing, [], now);
    UpdatedKeepsPolicy(task, Processing, [], now);
    match outcome {
      case Produced(out) =>
        var _ := store.UpdateTaskStatus(id, Completed, [SetResult(Some(Output(out, None)))], now);
        retry := false;
      case Raised(err) =>
        retry := RecordFailure(store, id, err, retryCount, now);
    }
    assert store.tasks[id] == step.task;
  }

  /**
   * The `except` block of this copy's `process_watermark_task`: RETRYING with
   * the error and the next retry count while `retry_count < max_retries`,
   * else FAILED with the error and the retry count reached.
   */
  method RecordFailure(store: TaskManager, id: TaskId, err: string, retryCount: nat, now: Time) returns (retry: bool)
    requires id in store.tasks
    modifies store
    ensures retry <==> retryCount < old(store.tasks)[id].maxRetries
    ensures var after := Updated(old(store.tasks)[id], if retry then Retrying else Failed,
                                 FailureArgs(err, if retry then retryCount + 1 else retryCount), now);
      store.tasks == old(store.tasks)[id := after] && store.updates == old(store.updates) + [(id, after)]
  {
    var task := store.tasks[id];
    if retryCount < task.maxRetries {
      var _ := store.UpdateTaskStatus(id, Retrying, FailureArgs(err, retryCount + 1), now);
      retry := true;
    } else {
      var _ := store.UpdateTaskStatus(id, Failed, FailureArgs(err, retryCount), now);
      retry := false;
    }
  }

  /**
   * The per-file PROCESSING update of `process_batch_task` on a task already
   * PROCESSING and started: only its result changes.
   */
  method SetProgress(store: TaskManager, id: TaskId, report: Payload, now: Time)
    requires id in store.tasks && store.tasks[id].status == Processing && store.tasks[id].startedAt.Some?
    modifies store
    ensures var after := old(store.tasks)[id].(result := Some(report));
      store.tasks == old(store.tasks)[id := after] && store.updates == old(store.updates) + [(id, after)]
  {
    Tasks.ProgressUpdate(store.tasks[id], report, now);
    var _ := store.UpdateTaskStatus(id, Processing, [SetResult(Some(report))], now);
  }

  /**
   * `process_batch_task` of this copy: the same walk over the files as
   * `Tasks.ProcessBatchTask`, counting attempted files in `processed_count`;
   * the store is written once to open the batch, once after each file
   * (`ProgressTasks`) and once to close it COMPLETED with the final report.
   */
  method ProcessBatchTask(store: TaskManager, id: TaskId, files: seq<string>, outcome: nat -> EngineResult, now: Time)
    modifies store
    ensures id !in old(store.tasks) ==> store.tasks == old(store.tasks) && store.updates == old(store.updates)
    ensures id in old(store.tasks) ==>
      var started := Tasks.BeginBatch(old(store.tasks)[id], files, now);
      var done := started.(status := Completed, completedAt := Some(now), result := Some(FinalReport(files, outcome)));
      && store.tasks == old(store.tasks)[id := done]
      && store.updates == old(store.updates) + WritesTo(id, [started] + ProgressTasks(started, files, outcome) + [done])
  {
    var found := store.GetTask(id);
    if found.None? {
      return;
    }
    Tasks.BeginBatchValue(found.value, files, now);
    var _ := store.UpdateTaskStatus(id, Processing, [SetResult(Some(BatchReport(|files|, [], [], 0)))], now);
    ghost var started := store.tasks[id];
    var processed, skipped := WalkFiles(store, id, files, outcome, now);
    var last := BatchReport(|files|, processed, skipped, 100);
    Tasks.CompleteUpdate(store.tasks[id], last, now);
    var _ := store.UpdateTaskStatus(id, Completed, [SetResult(Some(last))], now);
    ghost var done := store.tasks[id];
    ghost var written := ProgressTasks(started, files, outcome);
    WritesToAppend(id, [started] + written, [done]);
    WritesToAppend(id, [started], written);
    assert WritesTo(id, [started]) == [(id, started)] && WritesTo(id, [done]) == [(id, done)];
  }

  /**
   * The loop of this copy's `process_batch_task`: the same walk as
   * `Tasks.WalkFiles`, with the progress computed from `processed_count`,
   * which counts the files attempted so far.
   */
  method WalkFiles(store: TaskManager, id: TaskId, files: seq<string>, outcome: nat -> EngineResult, now: Time)
    returns (processed: seq<Processed>, skipped: seq<Skipped>)
    requires id in store.tasks && store.tasks[id].status == Processing && store.tasks[id].startedAt.Some?
    requires store.tasks[id].result == Some(BatchReport(|files|, [], [], 0))
    modifies store
    ensures processed == ProcessedOf(files, outcome) && skipped == SkippedOf(files, outcome)
    ensures store.tasks == old(store.tasks)[id := old(store.tasks)[id].(result := Some(BatchReports(files, outcome)[|files|]))]
    ensures store.updates == old(store.updates) + WritesTo(id, ProgressTasks(old(store.tasks)[id], files, outcome))
  {
    ghost var started := store.tasks[id];
    ghost var reports := BatchReports(files, outcome);
    ghost var written := ProgressTasks(started, files, outcome);
    processed, skipped := [], [];
    var processedCount := 0;
    for i := 0 to |files|
      invariant processedCount == i
      invariant processed == ProcessedOf(files[..i], outcome) && skipped == SkippedOf(files[..i], outcome)
      invariant store.tasks == old(store.tasks)[id := started.(result := Some(reports[i]))]
      invariant store.updates == old(store.updates) + WritesTo(id, written[..i])
    {
      ReportNext(files, outcome, i);
      ProgressTasksNext(id, started, files, outcome, i);
      match outcome(i) {
        case Produced(out) =>
          processed := processed + [Processed(files[i], out)];
        case Raised(err) =>
          skipped := skipped + [Skipped(files[i], err)];
      }
      processedCount := processedCount + 1;
      var report := BatchReport(|files|, processed, skipped, PercentDone(processedCount, |files|));
      assert report == reports[i + 1] by {
        assert reports[..i + 2][i + 1] == reports[i + 1];
      }
      SetProgress(store, id, report, now);
    }
    assert files[..|files|] == files && written[..|files|] == written;
  }

  /** Two tasks that differ at most in their `result`. */
  predicate SameButResult(a: Task, b: Task)
  {
    a.(result := None) == b.(result := None)
  }

  /** The result this copy stores for a single-file success: the output path without progress. */
  function WithoutProgress(p: Payload): Payload
  {
    match p
    case Output(out, _) => Output(out, None)
    case _ => p
  }

  /**
   * One attempt of the two copies, from tasks that differ at most in their
   * result: the same decision and sleep, tasks that again differ at most in
   * their result, and this copy's result the output path alone on success
   * and untouched on failure.
   */
  lemma AttemptsAgree(t: Task, u: Task, outcome: EngineResult, retryCount: nat, now: Time)
    requires SameButResult(t, u)
    ensures var s, v := Tasks.AttemptOnce(t, outcome, retryCount, now), AttemptOnce(u, outcome, retryCount, now);
      && (s.Rescheduled? <==> v.Rescheduled?)
      && (s.Rescheduled? ==> s.delay == v.delay && v.task.status == Retrying)
      && SameButResult(s.task, v.task)
      && (outcome.Produced? ==> s.task.result.Some? && v.task.result == Some(WithoutProgress(s.task.result.value)))
      && (outcome.Raised? ==> v.task.result == u.result)
  {
  }

  /**
   * The two copies of `process_watermark_task` make the same decisions: from
   * tasks that differ at most in their result they sleep the same backoff
   * delays and end in the same status, timestamps, error and retry count.
   * They differ only in the final result: on COMPLETED this copy keeps the
   * output path without the progress key, on FAILED it keeps the result the
   * task had before the call (where the other copy stores progress 0).
   */
  lemma {:induction false} RetryRunsAgree(t: Task, u: Task, attempt: nat -> EngineResult, retryCount: nat, now: Time)
    requires SameButResult(t, u)
    ensures var r, q := Tasks.RetryRun(t, attempt, retryCount, now), RetryRun(u, attempt, retryCount, now);
      && q.delays == r.delays && q.clock == r.clock
      && IsTerminal(r.task.status)
      && (r.task.status == Completed ==> r.task.result.Some? && q.task == r.task.(result := Some(WithoutProgress(r.task.result.value))))
      && (r.task.status == Failed ==> q.task == r.task.(result := u.result))
    decreases if retryCount < t.maxRetries then t.maxRetries - retryCount else 0
  {
    var s := Tasks.AttemptOnce(t, attempt(retryCount), retryCount, now);
    var v := AttemptOnce(u, attempt(retryCount), retryCount, now);
    AttemptsAgree(t, u, attempt(retryCount), retryCount, now);
    if s.Rescheduled? {
      RetryRunsAgree(s.task, v.task, attempt, retryCount + 1, Advance(now, s.delay));
    }
  }
}
