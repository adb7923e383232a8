/**
 * The task entity shared, line for line, by the two copies of the task
 * bookkeeping (src/watermarker/tasks/watermark.py and src/watermarker/main.py):
 * the status enumeration, the `Task` record, the store's update rule
 * (status stamp, then `setattr` for each keyword naming a field), the backoff
 * formula, the reaper's expiry test and the batch driver's running report.
 */
module TaskModel {
  import opened Wrappers
  import opened MediaEngine

  type TaskId = string

  /** A UTC instant, in seconds; `datetime.utcnow()` is passed in as `now`. */
  type Time = int

  datatype TaskStatus = Pending | Processing | Completed | Failed | Retrying

  predicate IsTerminal(s: TaskStatus)
  {
    s == Completed || s == Failed
  }

  /** The shapes the drivers store in `Task.result`. */
  datatype Payload =
    | Progress(percent: int)                               // {"progress": p}
    | Output(outputPath: string, shownPercent: Option<int>)   // {"output_path": o} or {"output_path": o, "progress": p}
    | BatchReport(totalFiles: nat, processed: seq<Processed>, skipped: seq<Skipped>, percent: int)

  datatype Task = Task(
    taskId: TaskId,
    status: TaskStatus,
    createdAt: Time,
    startedAt: Option<Time>,
    completedAt: Option<Time>,
    result: Option<Payload>,
    error: Option<string>,
    retryCount: int,
    maxRetries: int,
    retryDelay: int)

  /** The `result` entry of `Task.to_dict()`: JSON null, `{}`, or the stored payload. */
  datatype ResultJson = Null | EmptyObject | Object(payload: Payload)

  /**
   * `Task.to_dict()`: every field but `retry_delay`; the timestamps stay
   * instants rather than ISO-8601 strings.
   */
  datatype Snapshot = Snapshot(
    taskId: TaskId,
    status: TaskStatus,
    createdAt: Time,
    startedAt: Option<Time>,
    completedAt: Option<Time>,
    result: ResultJson,
    error: Option<string>,
    retryCount: int,
    maxRetries: int)

  /** `Task(task_id=..., max_retries=..., retry_delay=...)` with the model's defaults. */
  function NewTask(id: TaskId, now: Time, maxRetries: int, retryDelay: int): Task
  {
    Task(id, Pending, now, None, None, None, None, 0, maxRetries, retryDelay)
  }

  /**
   * One keyword argument of `update_task_status`. Each constructor but the
   * last names an attribute of `Task`; `NotAField` is a keyword naming none,
   * which `hasattr` rejects. `status` is the method's own parameter, so no
   * keyword can carry it.
   */
  datatype Assignment =
    | SetTaskId(id: TaskId)
    | SetCreatedAt(created: Time)
    | SetStartedAt(started: Option<Time>)
    | SetCompletedAt(completed: Option<Time>)
    | SetResult(payload: Option<Payload>)
    | SetError(message: Option<string>)
    | SetRetryCount(count: int)
    | SetMaxRetries(limit: int)
    | SetRetryDelay(delay: int)
    | NotAField(name: string)
  {
    /** The attribute this keyword names, as spelled in the source. */
    function Key(): Option<string>
    {
      match this
      case SetTaskId(_) => Some("task_id")
      case SetCreatedAt(_) => Some("created_at")
      case SetStartedAt(_) => Some("started_at")
      case SetCompletedAt(_) => Some("completed_at")
      case SetResult(_) => Some("result")
      case SetError(_) => Some("error")
      case SetRetryCount(_) => Some("retry_count")
      case SetMaxRetries(_) => Some("max_retries")
      case SetRetryDelay(_) => Some("retry_delay")
      case NotAField(_) => None
    }
  }

  /** `if hasattr(task, key): setattr(task, key, value)` */
  function Assign(t: Task, a: Assignment): Task
  {
    match a
    case SetTaskId(v) => t.(taskId := v)
    case SetCreatedAt(v) => t.(createdAt := v)
    case SetStartedAt(v) => t.(startedAt := v)
    case SetCompletedAt(v) => t.(completedAt := v)
    case SetResult(v) => t.(result := v)
    case SetError(v) => t.(error := v)
    case SetRetryCount(v) => t.(retryCount := v)
    case SetMaxRetries(v) => t.(maxRetries := v)
    case SetRetryDelay(v) => t.(retryDelay := v)
    case NotAField(_) => t
  }

  /** The `for key, value in kwargs.items()` loop: keywords applied in call order. */
  function AssignAll(t: Task, kwargs: seq<Assignment>): Task
  {
    if kwargs == [] then t
    else Assign(AssignAll(t, kwargs[..|kwargs| - 1]), kwargs[|kwargs| - 1])
  }

  /** The status assignment and the timestamps the store derives from it. */
  function Stamp(t: Task, status: TaskStatus, now: Time): Task
  {
    if status == Processing && t.startedAt.None? then t.(status := status, startedAt := Some(now))
    else if IsTerminal(status) then t.(status := status, completedAt := Some(now))
    else t.(status := status)
  }

  /** The task after `update_task_status(task_id, status, **kwargs)` at instant `now`. */
  function Updated(t: Task, status: TaskStatus, kwargs: seq<Assignment>, now: Time): Task
  {
    AssignAll(Stamp(t, status, now), kwargs)
  }

  /** The fields that `name` designates agree in `t` and `u`; unknown names designate nothing. */
  predicate Agree(t: Task, u: Task, name: string)
  {
    match name
    case "task_id" => t.taskId == u.taskId
    case "created_at" => t.createdAt == u.createdAt
    case "started_at" => t.startedAt == u.startedAt
    case "completed_at" => t.completedAt == u.completedAt
    case "result" => t.result == u.result
    case "error" => t.error == u.error
    case "retry_count" => t.retryCount == u.retryCount
    case "max_retries" => t.maxRetries == u.maxRetries
    case "retry_delay" => t.retryDelay == u.retryDelay
    case _ => true
  }

  /** No keyword can change the status the store just set. */
  lemma {:induction false} AssignAllKeepsStatus(t: Task, kwargs: seq<Assignment>)
    ensures AssignAll(t, kwargs).status == t.status
  {
    if kwargs != [] {
      AssignAllKeepsStatus(t, kwargs[..|kwargs| - 1]);
    }
  }

  /** A field that no keyword names keeps its value. */
  lemma {:induction false} AssignAllUntouched(t: Task, kwargs: seq<Assignment>, name: string)
    requires forall k :: 0 <= k < |kwargs| ==> kwargs[k].Key() != Some(name)
    ensures Agree(AssignAll(t, kwargs), t, name)
  {
    if kwargs != [] {
      AssignAllUntouched(t, kwargs[..|kwargs| - 1], name);
    }
  }

  /** Keywords that name no attribute of `Task` have no effect at all. */
  lemma {:induction false} AssignAllIgnoresUnknown(t: Task, kwargs: seq<Assignment>)
    ensures AssignAll(t, kwargs) == AssignAll(t, KnownOnly(kwargs))
  {
    if kwargs != [] {
      var init, last := kwargs[..|kwargs| - 1], kwargs[|kwargs| - 1];
      assert kwargs == init + [last];
      KnownOnlyAppend(init, last);
      AssignAllIgnoresUnknown(t, init);
      if last.Key().Some? {
        assert KnownOnly(kwargs)[..|KnownOnly(kwargs)| - 1] == KnownOnly(init);
      }
    }
  }

  /** The keywords that `hasattr` accepts, in order. */
  function KnownOnly(kwargs: seq<Assignment>): (r: seq<Assignment>)
    ensures |r| <= |kwargs|
    ensures forall k :: 0 <= k < |r| ==> r[k].Key().Some?
  {
    if kwargs == [] then []
    else
      var rest := KnownOnly(kwargs[..|kwargs| - 1]);
      if kwargs[|kwargs| - 1].Key().Some? then rest + [kwargs[|kwargs| - 1]] else rest
  }

  lemma KnownOnlyAppend(init: seq<Assignment>, last: Assignment)
    ensures KnownOnly(init + [last]) == KnownOnly(init) + (if last.Key().Some? then [last] else [])
  {
    assert (init + [last])[..|init + [last]| - 1] == init;
  }

  /**
   * The timestamps the store derives: `started_at` only on a PROCESSING update
   * that finds it unset, `completed_at` on every COMPLETED or FAILED update,
   * unless a keyword names these fields itself.
   */
  lemma UpdatedStamps(t: Task, status: TaskStatus, kwargs: seq<Assignment>, now: Time)
    requires forall k :: 0 <= k < |kwargs| ==> kwargs[k].Key() !in {Some("started_at"), Some("completed_at")}
    ensures Updated(t, status, kwargs, now).status == status
    ensures Updated(t, status, kwargs, now).startedAt ==
              if status == Processing && t.startedAt.None? then Some(now) else t.startedAt
    ensures Updated(t, status, kwargs, now).completedAt ==
              if IsTerminal(status) then Some(now) else t.completedAt
  {
    AssignAllKeepsStatus(Stamp(t, status, now), kwargs);
    AssignAllUntouched(Stamp(t, status, now), kwargs, "started_at");
    AssignAllUntouched(Stamp(t, status, now), kwargs, "completed_at");
  }

  /** No keyword of the drivers names `max_retries` or `retry_delay`, so both limits survive every update. */
  lemma UpdatedKeepsPolicy(t: Task, status: TaskStatus, kwargs: seq<Assignment>, now: Time)
    requires forall k :: 0 <= k < |kwargs| ==> kwargs[k].Key() !in {Some("max_retries"), Some("retry_delay")}
    ensures Updated(t, status, kwargs, now).maxRetries == t.maxRetries
    ensures Updated(t, status, kwargs, now).retryDelay == t.retryDelay
    ensures Updated(t, status, kwargs, now).status == status
  {
    AssignAllUntouched(Stamp(t, status, now), kwargs, "max_retries");
    AssignAllUntouched(Stamp(t, status, now), kwargs, "retry_delay");
    AssignAllKeepsStatus(Stamp(t, status, now), kwargs);
  }

  /** `2 ** n` */
  function Pow2(n: nat): (p: nat)
    ensures p >= 1
  {
    if n == 0 then 1 else 2 * Pow2(n - 1)
  }

  /** `task.retry_delay * (2 ** retry_count)`: the sleep before the next attempt. */
  function RetryDelay(base: int, retryCount: nat): int
  {
    base * Pow2(retryCount)
  }

  /** Each backoff is twice the one before it. */
  lemma RetryDelayDoubles(base: int, retryCount: nat)
    ensures RetryDelay(base, retryCount + 1) == 2 * RetryDelay(base, retryCount)
    ensures RetryDelay(base, 0) == base
  {
  }

  /** The sleeps before attempts `lo + 1`, ..., `hi`: one per failed attempt `lo`, ..., `hi - 1`. */
  function Backoff(base: int, lo: nat, hi: nat): (ds: seq<int>)
    requires lo <= hi
    ensures |ds| == hi - lo
    ensures forall i :: 0 <= i < |ds| ==> ds[i] == RetryDelay(base, lo + i)
    decreases hi - lo
  {
    if lo == hi then [] else [RetryDelay(base, lo)] + Backoff(base, lo + 1, hi)
  }

  /** The clock after `asyncio.sleep(delay)`; a delay that is not positive returns at once. */
  function Advance(now: Time, delay: int): (later: Time)
    ensures later >= now
  {
    if delay > 0 then now + delay else now
  }

  /** The clock after sleeping through `ds` in order. */
  function Slept(now: Time, ds: seq<int>): (later: Time)
    ensures later >= now
    decreases ds
  {
    if ds == [] then now else Slept(Advance(now, ds[0]), ds[1..])
  }

  /** `datetime.utcnow() - timedelta(hours=hours)` */
  function Cutoff(now: Time, hours: int): Time
  {
    now - hours * 3600
  }

  /** The reaper's test: `t.completed_at and t.completed_at < cutoff`. */
  predicate Expired(t: Task, cutoff: Time)
  {
    t.completedAt.Some? && t.completedAt.value < cutoff
  }

  function ExpiredIds(m: map<TaskId, Task>, cutoff: Time): set<TaskId>
  {
    set id | id in m && Expired(m[id], cutoff)
  }

  /** The store after the reaper's sweep. */
  function Swept(m: map<TaskId, Task>, cutoff: Time): (r: map<TaskId, Task>)
    ensures forall id :: id in r <==> id in m && !Expired(m[id], cutoff)
    ensures forall id :: id in r ==> r[id] == m[id]
  {
    map id | id in m && !Expired(m[id], cutoff) :: m[id]
  }

  /**
   * The sweep keeps every unexpired task, in particular every task that was
   * never completed, and the count it reports is the number of entries gone.
   */
  lemma SweptSize(m: map<TaskId, Task>, cutoff: Time)
    ensures Swept(m, cutoff).Keys == m.Keys - ExpiredIds(m, cutoff)
    ensures |Swept(m, cutoff)| == |m| - |ExpiredIds(m, cutoff)|
    ensures forall id :: id in m && m[id].completedAt.None? ==> id in Swept(m, cutoff)
  {
    var r := Swept(m, cutoff);
    assert r.Keys == m.Keys - ExpiredIds(m, cutoff);
    assert ExpiredIds(m, cutoff) <= m.Keys;
    assert |m.Keys| == |m.Keys - ExpiredIds(m, cutoff)| + |ExpiredIds(m, cutoff)| by {
      SubsetCard(m.Keys, ExpiredIds(m, cutoff));
    }
  }

  lemma SubsetCard<T>(a: set<T>, b: set<T>)
    requires b <= a
    ensures |a| == |a - b| + |b|
  {
    assert a == (a - b) + b;
  }

  /** `int((idx / len(file_paths)) * 100)`, in exact integer arithmetic. */
  function PercentDone(idx: nat, total: nat): int
    requires 0 < total
  {
    (100 * idx) / total
  }

  /** Progress never goes down, stays within 0..100 and reaches 100 on the last file. */
  lemma PercentDoneMonotone(i: nat, j: nat, total: nat)
    requires i <= j <= total && 0 < total
    ensures 0 <= PercentDone(i, total) <= PercentDone(j, total) <= 100
    ensures PercentDone(total, total) == 100
  {
    DivMonotone(100 * i, 100 * j, total);
    DivMonotone(100 * j, 100 * total, total);
    DivExact(100, total);
  }

  lemma {:induction false} MulLe(d: nat, x: nat, y: nat)
    requires x <= y
    ensures d * x <= d * y
    decreases y - x
  {
    if x < y {
      MulLe(d, x, y - 1);
      assert d * y == d * (y - 1) + d;
    }
  }

  lemma DivMonotone(a: nat, b: nat, d: nat)
    requires a <= b && 0 < d
    ensures a / d <= b / d
  {
    var q1, q2 := a / d, b / d;
    assert d * q1 <= a && b < d * q2 + d;
    if q1 > q2 {
      assert d * (q2 + 1) == d * q2 + d;
      MulLe(d, q2 + 1, q1);
      assert false;
    }
  }

  lemma DivExact(k: nat, d: nat)
    requires 0 < d
    ensures (k * d) / d == k
  {
    var q := (k * d) / d;
    assert d * q <= k * d < d * q + d;
    if q < k {
      assert d * (q + 1) == d * q + d;
      MulLe(d, q + 1, k);
      assert false;
    } else if q > k {
      assert d * (k + 1) == d * k + d;
      MulLe(d, k + 1, q);
      assert false;
    }
  }

  /** The result the batch driver stores after attempting its `idx`-th file. */
  function ReportAfter(files: seq<string>, outcome: nat -> EngineResult, idx: nat): Payload
    requires 0 < idx <= |files|
  {
    BatchReport(|files|, ProcessedOf(files[..idx], outcome), SkippedOf(files[..idx], outcome),
                PercentDone(idx, |files|))
  }

  /** The result stored with the final COMPLETED update. */
  function FinalReport(files: seq<string>, outcome: nat -> EngineResult): Payload
  {
    BatchReport(|files|, ProcessedOf(files, outcome), SkippedOf(files, outcome), 100)
  }

  /** Every result the batch driver stores, in order: the empty report, one per file, the final one. */
  function BatchReports(files: seq<string>, outcome: nat -> EngineResult): seq<Payload>
  {
    [BatchReport(|files|, [], [], 0)]
      + seq(|files|, i requires 0 <= i < |files| => ReportAfter(files, outcome, i + 1))
      + [FinalReport(files, outcome)]
  }

  /**
   * One more file: its entry is appended to `processed` or to `skipped`, and
   * the report after it is the next stored result.
   */
  lemma ReportNext(files: seq<string>, outcome: nat -> EngineResult, idx: nat)
    requires idx < |files|
    ensures |BatchReports(files, outcome)| == |files| + 2
    ensures BatchReports(files, outcome)[..idx + 2] == BatchReports(files, outcome)[..idx + 1] + [ReportAfter(files, outcome, idx + 1)]
    ensures ProcessedOf(files[..idx + 1], outcome) == ProcessedOf(files[..idx], outcome)
              + (if outcome(idx).Produced? then [Processed(files[idx], outcome(idx).outputPath)] else [])
    ensures SkippedOf(files[..idx + 1], outcome) == SkippedOf(files[..idx], outcome)
              + (if outcome(idx).Raised? then [Skipped(files[idx], outcome(idx).message)] else [])
  {
    BatchStep(files[..idx + 1], outcome);
    assert files[..idx + 1][..idx] == files[..idx];
    var rs := BatchReports(files, outcome);
    assert rs[idx + 1] == ReportAfter(files, outcome, idx + 1);
    assert rs[..idx + 2] == rs[..idx + 1] + [rs[idx + 1]];
  }

  /**
   * The body of `process_batch_task`'s loop for `files[idx]`, without the
   * store: the engine's answer appends to `processed` or to `skipped`, and the
   * report with the new progress is the one `ReportAfter` describes.
   */
  method RecordFile(files: seq<string>, outcome: nat -> EngineResult, idx: nat, processed: seq<Processed>, skipped: seq<Skipped>)
    returns (processed': seq<Processed>, skipped': seq<Skipped>, report: Payload)
    requires idx < |files|
    requires processed == ProcessedOf(files[..idx], outcome) && skipped == SkippedOf(files[..idx], outcome)
    ensures processed' == ProcessedOf(files[..idx + 1], outcome) && skipped' == SkippedOf(files[..idx + 1], outcome)
    ensures report == ReportAfter(files, outcome, idx + 1)
  {
    ReportNext(files, outcome, idx);
    match outcome(idx) {
      case Produced(out) =>
        processed', skipped' := processed + [Processed(files[idx], out)], skipped;
      case Raised(err) =>
        processed', skipped' := processed, skipped + [Skipped(files[idx], err)];
    }
    report := BatchReport(|files|, processed', skipped', PercentDone(idx + 1, |files|));
  }

  /** The entries `update_task_status` logs when it stores the tasks `ts` one after another under `id`. */
  function WritesTo(id: TaskId, ts: seq<Task>): seq<(TaskId, Task)>
  {
    seq(|ts|, k requires 0 <= k < |ts| => (id, ts[k]))
  }

  lemma WritesToAppend(id: TaskId, a: seq<Task>, b: seq<Task>)
    ensures WritesTo(id, a + b) == WritesTo(id, a) + WritesTo(id, b)
  {
  }

  /**
   * The writes of a retry run, attempt by attempt: each even write opens an
   * attempt with PROCESSING, and each odd write but the last closes one
   * RETRYING with the retry count it reached, starting from `retryCount`.
   */
  predicate Alternates(ts: seq<Task>, retryCount: nat)
  {
    forall k :: 0 <= k < |ts| ==>
      if k % 2 == 0 then ts[k].status == Processing
      else k < |ts| - 1 ==> ts[k].status == Retrying && ts[k].retryCount == retryCount + (k + 1) / 2
  }

  /** A rescheduled attempt's two writes put in front of the writes of the retries. */
  lemma AlternatesCons(start: Task, close: Task, rest: seq<Task>, retryCount: nat)
    requires start.status == Processing && close.status == Retrying && close.retryCount == retryCount + 1
    requires Alternates(rest, retryCount + 1)
    ensures Alternates([start, close] + rest, retryCount)
  {
    var ts := [start, close] + rest;
    forall k | 2 <= k < |ts|
      ensures if k % 2 == 0 then ts[k].status == Processing
              else k < |ts| - 1 ==> ts[k].status == Retrying && ts[k].retryCount == retryCount + (k + 1) / 2
    {
      assert ts[k] == rest[k - 2] && (k - 2) % 2 == k % 2 && (k - 2 + 1) / 2 + 1 == (k + 1) / 2;
    }
  }

  /** The tasks the per-file updates of a batch store: the started task `t` with the report after each file. */
  function ProgressTasks(t: Task, files: seq<string>, outcome: nat -> EngineResult): seq<Task>
  {
    seq(|files|, k requires 0 <= k < |files| => t.(result := Some(ReportAfter(files, outcome, k + 1))))
  }

  /** One more file adds its write to the per-file log. */
  lemma ProgressTasksNext(id: TaskId, t: Task, files: seq<string>, outcome: nat -> EngineResult, idx: nat)
    requires idx < |files|
    ensures var ts := ProgressTasks(t, files, outcome);
      WritesTo(id, ts[..idx + 1]) == WritesTo(id, ts[..idx]) + [(id, t.(result := Some(ReportAfter(files, outcome, idx + 1))))]
  {
    var ts := ProgressTasks(t, files, outcome);
    assert ts[..idx + 1] == ts[..idx] + [ts[idx]];
    WritesToAppend(id, ts[..idx], [ts[idx]]);
  }

  /**
   * What a poller reads after each file: the `k`-th per-file write is the
   * started task with only its result replaced, by a report whose lists hold
   * the entries of the first `k + 1` files in input order and whose progress
   * is the integer percentage of files attempted, never decreasing.
   */
  lemma ProgressTasksShape(t: Task, files: seq<string>, outcome: nat -> EngineResult)
    ensures var ts := ProgressTasks(t, files, outcome);
      && |ts| == |files|
      && (forall k :: 0 <= k < |ts| ==>
            && ts[k].result.Some? && ts[k] == t.(result := ts[k].result)
            && var r := ts[k].result.value;
            && r.BatchReport? && r.totalFiles == |files|
            && r.processed == ProcessedOf(files[..k + 1], outcome) && r.skipped == SkippedOf(files[..k + 1], outcome)
            && |r.processed| + |r.skipped| == k + 1
            && r.percent == PercentDone(k + 1, |files|))
      && (forall k, l :: 0 <= k <= l < |ts| ==> ts[k].result.value.percent <= ts[l].result.value.percent)
  {
    var ts := ProgressTasks(t, files, outcome);
    forall k | 0 <= k < |ts|
      ensures |ts[k].result.value.processed| + |ts[k].result.value.skipped| == k + 1
    {
      BatchCount(files[..k + 1], outcome);
    }
    forall k, l | 0 <= k <= l < |ts|
      ensures ts[k].result.value.percent <= ts[l].result.value.percent
    {
      PercentDoneMonotone(k + 1, l + 1, |files|);
    }
  }

  /**
   * The results a batch writes are the batch reports, one per write: the
   * opening update's empty report, the one after each file, the final one.
   */
  lemma BatchTasksReports(started: Task, done: Task, files: seq<string>, outcome: nat -> EngineResult)
    requires started.result == Some(BatchReport(|files|, [], [], 0))
    requires done.result == Some(FinalReport(files, outcome))
    ensures var ts := [started] + ProgressTasks(started, files, outcome) + [done];
      && |ts| == |BatchReports(files, outcome)|
      && forall k :: 0 <= k < |ts| ==> ts[k].result == Some(BatchReports(files, outcome)[k])
  {
    var ts := [started] + ProgressTasks(started, files, outcome) + [done];
    var rs := BatchReports(files, outcome);
    forall k | 0 <= k < |ts|
      ensures ts[k].result == Some(rs[k])
    {
      if 0 < k < |ts| - 1 {
        assert ts[k] == ProgressTasks(started, files, outcome)[k - 1];
      }
    }
  }

  /**
   * What a poller can observe of a batch: after the `idx`-th file the two lists
   * hold `idx` entries and progress is the integer percentage; progress never
   * decreases from one stored result to the next and the last one is 100 with
   * the full lists, however many files were skipped (also for an empty list).
   */
  lemma BatchReportsProgress(files: seq<string>, outcome: nat -> EngineResult)
    ensures var rs := BatchReports(files, outcome);
      && |rs| == |files| + 2
      && (forall k :: 0 <= k < |rs| ==> rs[k].BatchReport? && rs[k].totalFiles == |files|)
      && (forall k :: 0 <= k < |rs| - 1 ==> |rs[k].processed| + |rs[k].skipped| == k)
      && (forall k, l :: 0 <= k <= l < |rs| ==> rs[k].percent <= rs[l].percent)
      && rs[|rs| - 1] == FinalReport(files, outcome) && rs[|rs| - 1].percent == 100
  {
    var rs := BatchReports(files, outcome);
    forall k | 0 < k < |rs| - 1
      ensures |rs[k].processed| + |rs[k].skipped| == k
      ensures 0 <= rs[k].percent <= 100
    {
      assert rs[k] == ReportAfter(files, outcome, k);
      BatchCount(files[..k], outcome);
      PercentDoneMonotone(k, k, |files|);
    }
    forall k, l | 0 <= k <= l < |rs|
      ensures rs[k].percent <= rs[l].percent
    {
      if 0 < k && l < |rs| - 1 {
        PercentDoneMonotone(k, l, |files|);
      }
    }
  }
}
