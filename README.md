# watermarker: task bookkeeping and media helpers in Dafny

This project models two cores of the watermarker service.

- **Background-task bookkeeping.** The in-memory task store is modelled as the class `TaskManager`, holding a
  `map<TaskId, Task>` and a log of the hooks it fires. It covers:
  - `create_task`, `get_task`, `update_task_status` (the status stamp, then a `setattr` loop over the keyword
    arguments that name an attribute) and `cleanup_old_tasks`;
  - the single-file driver `process_watermark_task`, with its retry, exponential backoff and recursion;
  - the batch driver `process_batch_task`, with its `processed`/`skipped` lists and integer progress.

  The canonical copy is src/watermarker/tasks/watermark.py (module `Tasks`). The older duplicate in
  src/watermarker/main.py (module `LegacyTasks`) has no hooks, stores no `progress` on success and renders a
  missing result as JSON null. The task record, the update rule, the backoff formula, the expiry test and the
  batch report are shared in `TaskModel`.
- **String and validation helpers of the media engine** (src/watermarker/core/watermark.py, module
  `MediaEngine`):
  - `get_env_var` and `load_config`;
  - the six-digit colour check;
  - `escape_ffmpeg_text`;
  - the position, output-path and quality selection inside `apply_watermark`, and the command it builds;
  - the `process_files` loop.
- **The same helpers in the root script** watermark.py (module `LegacyScript`). There the later definitions of
  `is_valid_hex_color` and `escape_ffmpeg_text` are the ones in force. The script has its own `load_config`
  defaults and a file-validation loop that tests the base name only. It selects the position by flags and builds
  output paths with `os.path.splitext` and `os.path.join`.
- **Shared helpers** (module `Text`): `str.replace`, `rfind`, `lower`, `endswith`, `in`, `strip`, `str(int)` and
  `int(str)`. `lower` and `int(str)` are restricted to ASCII letters and digits; see "## Left out".

Everything the code gets from outside is a parameter:
- the clock is `now`;
- the uuid is `id`;
- each call of `apply_watermark` is an `EngineResult` (`Produced(path)` or `Raised(message)`), indexed by
  `retry_count` or by the file's position;
- `os.path.isfile` is a predicate;
- the environment is a map;
- the timestamp string is given.

Sleeping advances the clock by the backoff delay, and the delays are returned in order.

The model follows the code where the code and its documentation differ:
- The "start" hook fires again every time a retried task goes from RETRYING back to PROCESSING.
- The batch task completes with progress 100 however many files were skipped.
- In this snapshot, tasks/watermark.py passes keyword arguments that `apply_watermark` does not accept, so every
  real call raises. The engine therefore stays an arbitrary oracle, and every contract holds for any sequence of
  outcomes.

## Model

| member | source | states |
|---|---|---|
| TaskModel.AssignAllKeepsStatus | src/watermarker/tasks/watermark.py:85-87 | the keyword loop never changes the status that the update has just set |
| TaskModel.AssignAllUntouched | src/watermarker/tasks/watermark.py:85-87 | an attribute that no keyword names keeps its value |
| TaskModel.AssignAllIgnoresUnknown | src/watermarker/tasks/watermark.py:85-87 | keywords for which `hasattr` is false are ignored: the loop gives the same task as the known keywords alone |
| TaskModel.UpdatedStamps | src/watermarker/tasks/watermark.py:78-83 | after an update the status is the new one; `started_at` becomes now only on PROCESSING when unset; `completed_at` is (re)set exactly on COMPLETED or FAILED; otherwise both keep their values |
| TaskModel.UpdatedKeepsPolicy | src/watermarker/tasks/watermark.py:78-87 | an update that names neither keeps `max_retries` and `retry_delay` |
| TaskModel.RetryDelayDoubles | src/watermarker/tasks/watermark.py:159 | the backoff is `retry_delay` at retry 0 and doubles with each retry |
| TaskModel.Backoff | src/watermarker/tasks/watermark.py:158-168 | the i-th sleep of a run starting at retry `lo` is `retry_delay·2^(lo+i)` |
| TaskModel.Swept | src/watermarker/tasks/watermark.py:101-106 | the swept store keeps exactly the tasks that are not expired, unchanged |
| TaskModel.SweptSize | src/watermarker/tasks/watermark.py:101-106 | the removed ids are exactly the expired ones, the store shrinks by their number, and a task with no `completed_at` is never removed |
| TaskModel.PercentDoneMonotone | src/watermarker/tasks/watermark.py:240 | progress lies within 0..100, never decreases, and is 100 after the last file |
| TaskModel.ReportNext | src/watermarker/tasks/watermark.py:235-250 | one more file appends its entry to `processed` or to `skipped`, by its outcome, and adds the next stored report |
| TaskModel.RecordFile | src/watermarker/tasks/watermark.py:219-250 | one loop step turns the lists after `idx` files into the lists after `idx+1` and builds the report stored for them |
| TaskModel.BatchReportsProgress | src/watermarker/tasks/watermark.py:208-261 | every stored report carries the file count; after k files `processed` and `skipped` hold k entries; progress never decreases across the reports; the last report is the final one, with 100 |
| TaskModel.ProgressTasksShape | src/watermarker/tasks/watermark.py:219-250 | the k-th per-file write is the started task with only its result replaced, by a report whose lists hold the entries of the first k+1 files in order, with `|processed|+|skipped|` = k+1 and progress ⌊100·(k+1)/N⌋, never decreasing |
| TaskModel.BatchTasksReports | src/watermarker/tasks/watermark.py:208-261 | the results a batch writes are the batch reports, one per write: the empty report, the one after each file, the final one |
| Tasks.HookFor | src/watermarker/tasks/watermark.py:91-96 | "start" iff entering PROCESSING from another status, "complete" iff COMPLETED, "error" iff FAILED, none otherwise (RETRYING, PENDING, PROCESSING again) |
| Tasks.TaskManager.constructor | src/watermarker/tasks/watermark.py:20 | the store starts empty |
| Tasks.TaskManager.CreateTask | src/watermarker/tasks/watermark.py:62-66 | stores, under the new id, a PENDING task with retry_count 0 and the given policy; no other entry changes and no hook fires |
| Tasks.TaskManager.GetTask | src/watermarker/tasks/watermark.py:68-70 | a task is returned iff the id is stored, and it is the stored one |
| Tasks.TaskManager.UpdateTaskStatus | src/watermarker/tasks/watermark.py:72-98 | an unknown id returns None and changes nothing; otherwise only that entry becomes the updated task, and exactly the hook `HookFor` selects is logged with its snapshot; the update is appended to the log of writes |
| Tasks.TaskManager.CleanupOldTasks | src/watermarker/tasks/watermark.py:100-106 | the store loses exactly the tasks completed before now − hours; the count returned is their number |
| Tasks.AttemptOnce | src/watermarker/tasks/watermark.py:126-189 | an attempt is rescheduled iff the engine raised and retry_count < max_retries, with delay `retry_delay·2^retry_count`; identity and policy are kept |
| Tasks.AttemptOnceByUpdates | src/watermarker/tasks/watermark.py:126-189 | one attempt is the composition of the store updates the code makes: PROCESSING with progress 0, then COMPLETED with the output and progress 100, or RETRYING with retry_count+1, or FAILED with retry_count unchanged; its hooks are the hooks of those updates |
| Tasks.Attempt | src/watermarker/tasks/watermark.py:126-167 | the store after one attempt holds the attempt's task and its hooks, and was written twice: PROCESSING with progress 0, then the attempt's task; a retry is reported iff the attempt was rescheduled |
| Tasks.RecordFailure | src/watermarker/tasks/watermark.py:155-189 | a failure retries iff retry_count < max_retries: RETRYING with retry_count+1, else FAILED with retry_count unchanged, both with the error and progress 0, written once |
| Tasks.ProcessWatermarkTask | src/watermarker/tasks/watermark.py:109-189 | a missing id is a no-op; otherwise the store ends with the final task of the whole retry run and its hooks, its writes are those of every attempt in order, and the sleeps are returned in order |
| Tasks.RetriesUsedLeast | src/watermarker/tasks/watermark.py:155-181 | a run retries exactly while the engine raises within the budget: every earlier attempt raised below the limit, and the last attempt succeeded or the budget is spent |
| Tasks.RetryRunSchedule | src/watermarker/tasks/watermark.py:158-181 | the sleeps of a run are the backoff sequence from its first retry_count, and the clock advances by their sum |
| Tasks.RetryRunStamps | src/watermarker/tasks/watermark.py:109-189 | a run keeps the id, creation time and policy; `started_at` is set once; `completed_at` is the final clock |
| Tasks.RetryRunCompletes | src/watermarker/tasks/watermark.py:148-153 | when the last attempt succeeds: COMPLETED with the output and progress 100, retry_count advanced by the retries used, and the error of the last failure kept |
| Tasks.RetryRunFails | src/watermarker/tasks/watermark.py:182-189 | when the last attempt fails: FAILED with progress 0, retry_count advanced by the retries used, and the last error |
| Tasks.AttemptOnceHooks | src/watermarker/tasks/watermark.py:91-96 | an attempt fires "start" unless the task was already PROCESSING, then "complete" or "error" when it finishes and nothing when rescheduled |
| Tasks.RetryRunHooks | src/watermarker/tasks/watermark.py:109-189 | a run with n retries fires n (+1 unless already PROCESSING) "start" hooks and then exactly one "complete" or "error", according to the last attempt |
| Tasks.RunTasksShape | src/watermarker/tasks/watermark.py:126-181 | a run with n retries writes 2(n+1) times: every attempt opens with PROCESSING and progress 0, every attempt but the last closes RETRYING with the retry count it reached, and the last write is the final task |
| Tasks.RetryRunLastHook | src/watermarker/tasks/watermark.py:89-96 | the last hook of a run carries `to_dict()` of the final task |
| Tasks.RetriesUsedAllFail | src/watermarker/tasks/watermark.py:158-189 | an engine that always raises uses the whole remaining budget |
| Tasks.RetryRunAlwaysFails | src/watermarker/tasks/watermark.py:155-189 | with an engine that always raises: FAILED with retry_count = max_retries, the last error, the full backoff sequence and only "start" hooks before one "error" |
| Tasks.DefaultPolicyExhausted | src/watermarker/tasks/watermark.py:39-41 | with the defaults (3 retries, 5 s) and an engine that always raises: sleeps 5, 10, 20; FAILED with retry_count 3; hooks start×4 then error; completed 35 s later |
| Tasks.BeginBatchValue | src/watermarker/tasks/watermark.py:209-213 | the batch starts PROCESSING with an empty report of the file count and progress 0 |
| Tasks.ProgressUpdate | src/watermarker/tasks/watermark.py:241-250 | a progress update of a PROCESSING task changes only its result and fires no hook |
| Tasks.CompleteUpdate | src/watermarker/tasks/watermark.py:252-261 | the final update sets COMPLETED, `completed_at` and the final report only |
| Tasks.OpenBatch | src/watermarker/tasks/watermark.py:209-213 | the store after the opening update, its "start" hook and its one write |
| Tasks.SetProgress | src/watermarker/tasks/watermark.py:241-250 | the store after a progress update differs only in that task's result; one write, no hook |
| Tasks.WalkFiles | src/watermarker/tasks/watermark.py:215-250 | the loop ends with the lists of all files in input order; the store is written once per file, the k-th write being the started task with the report after k+1 files, and no hook fires |
| Tasks.CloseBatch | src/watermarker/tasks/watermark.py:252-261 | the store after the closing update, its "complete" hook and its one write |
| Tasks.ProcessBatchTask | src/watermarker/tasks/watermark.py:192-261 | a missing id is a no-op; otherwise the store is written, in order, by the opening update, one update per file and the closing COMPLETED update with the final report; the task ends COMPLETED with progress 100, and the hooks are "start" (unless already PROCESSING) then "complete" |
| LegacyTasks.ToDictAgrees | src/watermarker/main.py:51-62 | the legacy snapshot differs from the canonical one only in rendering a missing result as null rather than `{}` |
| LegacyTasks.TaskManager.CreateTask | src/watermarker/main.py:66-75 | stores a PENDING task with retry_count 0 and the given policy under the new id; nothing else changes |
| LegacyTasks.TaskManager.GetTask | src/watermarker/main.py:77-79 | a task is returned iff the id is stored |
| LegacyTasks.TaskManager.UpdateTaskStatus | src/watermarker/main.py:81-97 | an unknown id returns None and changes nothing; otherwise only that entry is updated, by the shared rule, and the update is appended to the log of writes |
| LegacyTasks.TaskManager.ListExpired | src/watermarker/main.py:103-107 | the ids collected are distinct and are exactly the expired ones |
| LegacyTasks.TaskManager.DeleteAll | src/watermarker/main.py:109-110 | deleting the ids leaves exactly the other entries, unchanged |
| LegacyTasks.TaskManager.CleanupOldTasks | src/watermarker/main.py:99-112 | the store loses exactly the tasks completed before the cutoff; the count returned is their number |
| LegacyTasks.AttemptOnce | src/watermarker/main.py:136-189 | rescheduled iff the engine raised within the budget, with the backoff delay; policy kept |
| LegacyTasks.AttemptOnceByUpdates | src/watermarker/main.py:136-189 | one attempt is PROCESSING (no result), then COMPLETED with `{output_path}` only, or RETRYING/FAILED as in the canonical copy |
| LegacyTasks.Attempt | src/watermarker/main.py:136-170 | the store after one attempt holds the attempt's task and was written twice, PROCESSING then the attempt's task; a retry is reported iff it was rescheduled |
| LegacyTasks.RecordFailure | src/watermarker/main.py:156-189 | a failure retries iff retry_count < max_retries, else FAILED with retry_count unchanged, written once |
| LegacyTasks.ProcessWatermarkTask | src/watermarker/main.py:123-189 | a missing id is a no-op; otherwise the store ends with the final task of the retry run, its writes are those of every attempt in order, and its sleeps are returned |
| LegacyTasks.RunTasksShape | src/watermarker/main.py:136-181 | a run with n retries writes 2(n+1) times: each attempt opens with PROCESSING, every attempt but the last closes RETRYING with the retry count it reached, and the last write is the final task |
| LegacyTasks.SetProgress | src/watermarker/main.py:237-246 | a progress update changes only that task's result, written once |
| LegacyTasks.WalkFiles | src/watermarker/main.py:215-246 | the counted loop ends with the lists of all files in order; the store is written once per file with the report whose progress comes from `processed_count` |
| LegacyTasks.ProcessBatchTask | src/watermarker/main.py:191-258 | a missing id is a no-op; otherwise the store is written by the opening update, one update per file and the closing COMPLETED update, the same writes as the canonical driver makes |
| LegacyTasks.AttemptsAgree | src/watermarker/main.py:136-189 | an attempt of the legacy driver takes the canonical decision with the same delay; the tasks differ only in the result (no progress on success) |
| LegacyTasks.RetryRunsAgree | src/watermarker/main.py:123-189 | whole runs agree on sleeps, clock and final status; the final tasks differ only in the result |
| MediaEngine.GetEnvVar | src/watermarker/core/watermark.py:18-23 | the value read has no quote left at either end |
| MediaEngine.GetEnvVarFramed | src/watermarker/core/watermark.py:18-23 | the value read is a slice of the variable (or of the default when unset), and everything trimmed around it is whitespace or a quote |
| Text.StripTwice | src/watermarker/core/watermark.py:23 | `strip()` then `strip('\'"')` removes only characters of either set and leaves no quote at either end |
| MediaEngine.GetEnvVarTrimmed | src/watermarker/core/watermark.py:18-23 | a value with nothing to trim is read unchanged; an unset variable reads as its default |
| MediaEngine.HexGuardRedundant | src/watermarker/core/watermark.py:25-29 | the empty-string guard changes nothing: the check is exactly the pattern |
| MediaEngine.HexColorForms | src/watermarker/core/watermark.py:25-29 | six hex digits pass, with or without one trailing newline; `#`-prefixed, three-digit, longer and double-newline forms fail |
| MediaEngine.LoadConfig | src/watermarker/core/watermark.py:44-74 | settings are returned only with two valid colours |
| MediaEngine.CheckedSettings | src/watermarker/core/watermark.py:46-74 | settings are returned iff every number parsed and both colours are valid; the colours are the ones read |
| MediaEngine.ReadIntDecimal | src/watermarker/core/watermark.py:48 | a variable holding `str(n)` reads back as n |
| MediaEngine.LoadConfigRoundTrip | src/watermarker/core/watermark.py:44-74 | settings spelled out in the environment load back exactly |
| MediaEngine.LoadConfigDefaults | src/watermarker/core/watermark.py:46-58 | with nothing set: no output folder, padding 0, colour FFC0CB, border FFFFFF of 2, size 46, qualities 18 and 2, the DejaVu font, ./uploads, 1 GiB |
| Text.ParseDecimal | src/watermarker/core/watermark.py:48 | `int(str(n)) == n` for every integer n |
| MediaEngine.PassesCons | src/watermarker/core/watermark.py:31-35 | the three replace passes act on the first character independently of the rest |
| MediaEngine.EscapeTextEach | src/watermarker/core/watermark.py:31-35 | the three passes equal escaping character by character: no pass rewrites an earlier pass's output |
| MediaEngine.EscapeTextLength | src/watermarker/core/watermark.py:31-35 | length = input + #backslashes + 4·#quotes + 2·#colons |
| MediaEngine.EscapeTextPlain | src/watermarker/core/watermark.py:31-35 | text without backslash, quote and colon is unchanged |
| MediaEngine.EscapeTextColons | src/watermarker/core/watermark.py:31-35 | every colon of the escaped text follows a backslash |
| MediaEngine.UnescapeEscapeText | src/watermarker/core/watermark.py:31-35 | escaping is injective: the text reads back from its escaped form |
| MediaEngine.FilterFontPathSlashes | src/watermarker/core/watermark.py:159 | the font path keeps its length, has no backslash left, and is unchanged when it had none |
| MediaEngine.PositionByAxes | src/watermarker/core/watermark.py:168-183 | the branch equals the per-axis rule: padding from the leading edge, `extent-text_extent-padding` from the trailing one, or centred; unknown names are top-left |
| MediaEngine.PositionsDistinct | src/watermarker/core/watermark.py:168-183 | the five positions give five different placements |
| MediaEngine.PathStem | src/watermarker/core/watermark.py:151 | stem followed by suffix is the name |
| MediaEngine.PathSuffix | src/watermarker/core/watermark.py:151 | the suffix is a tail of the name |
| MediaEngine.DirPart | src/watermarker/core/watermark.py:152 | directory part followed by file name is the path |
| MediaEngine.OutputFileNameParts | src/watermarker/core/watermark.py:148-152 | the output name has no separator, ends with the input's suffix and carries `_watermarked` |
| MediaEngine.DefaultOutputPathShape | src/watermarker/core/watermark.py:148-152 | the default output is named stem + marker + timestamp + suffix and lies in the output folder, or beside the input when none is set |
| MediaEngine.ImagesAreValid | src/watermarker/core/watermark.py:10-11 | every image extension is an accepted extension |
| MediaEngine.BuildCommand | src/watermarker/core/watermark.py:185-209 | the command is ffmpeg, input, filter; `-q:v` for images, else `-crf` and audio copy; then `-y` and the output |
| MediaEngine.WatermarkCommand | src/watermarker/core/watermark.py:147-209 | the output is the requested path or the default one; the filter holds the escaped text, the slashed font path and the position's placement |
| MediaEngine.Verdict | src/watermarker/core/watermark.py:251-264 | a file is processed iff it exists, has an accepted extension, has no marker anywhere in its path, and the engine succeeds |
| MediaEngine.ProcessFiles | src/watermarker/core/watermark.py:225-272 | the lists are those of the verdicts on the files, in input order |
| MediaEngine.BatchStep | src/watermarker/core/watermark.py:249-267 | each file adds its entry to exactly one list |
| MediaEngine.BatchCount | src/watermarker/core/watermark.py:249-267 | the two lists hold one entry per file |
| MediaEngine.BatchPartition | src/watermarker/core/watermark.py:249-267 | together the lists hold every input file as often as it was given |
| MediaEngine.BatchListsGrow | src/watermarker/core/watermark.py:249-267 | the lists only grow: earlier lists are prefixes of later ones |
| MediaEngine.ProcessedAccepted | src/watermarker/core/watermark.py:249-264 | only existing, accepted, unmarked files reach `processed` |
| MediaEngine.OutputsNotReprocessed | src/watermarker/core/watermark.py:259-261 | a default output is skipped by a later run |
| LegacyScript.HexCheckAgrees | watermark.py:70-72 | the check in force accepts exactly what the guarded engine check accepts |
| LegacyScript.EscapeTextEach | watermark.py:74-77 | the three passes escape character by character |
| LegacyScript.EscapeTextLength | watermark.py:74-77 | length = input + #backslashes + 3·#quotes + #colons |
| LegacyScript.EscapeTextPlain | watermark.py:74-77 | text without backslash, quote and colon is unchanged |
| LegacyScript.EscapeTextColons | watermark.py:74-77 | every colon of the escaped text follows a backslash |
| LegacyScript.UnescapeEscapeText | watermark.py:74-77 | the text reads back from its escaped form |
| LegacyScript.EscapeComparison | watermark.py:74-77 | the script and the engine escape alike iff the text has no quote and no colon |
| LegacyScript.LoadConfig | watermark.py:37-68 | a configuration is returned only with two valid colours |
| LegacyScript.CheckedConfig | watermark.py:42-68 | None iff a number failed `int()` or a colour is invalid |
| LegacyScript.LoadConfigDefaults | watermark.py:43-53 | with nothing set: padding 10, FFFFFF text, FFC0CB border of 3, size 48, qualities 18 and 2, the DejaVu font |
| LegacyScript.LoadConfigRoundTrip | watermark.py:37-68 | settings spelled out in the environment load back exactly |
| LegacyScript.LoadConfigAgrees | watermark.py:43-53 | when the variables whose defaults differ are set, the script loads the engine settings the service loads |
| LegacyScript.ValidateFiles | watermark.py:134-140 | the loop splits the files into the valid and skipped ones, in input order |
| LegacyScript.ValidationPartition | watermark.py:134-140 | together the two lists hold every file as often as given |
| LegacyScript.ValidationSound | watermark.py:134-140 | valid files pass the test (exists, accepted extension, no marker in the base name); skipped ones fail it |
| LegacyScript.EngineStricter | watermark.py:137 | a file the engine accepts, the script accepts |
| LegacyScript.MarkedDirectory | watermark.py:137 | a file in a marked directory with a clean name is accepted by the script but skipped by the engine as already watermarked |
| LegacyScript.Position | watermark.py:193-208 | the flag branches give the engine's placement for the flagged position, top-left when none is set |
| LegacyScript.FlagPositionExact | watermark.py:193-208 | each single flag selects its own position |
| LegacyScript.SplitExt | watermark.py:157-158 | name and extension rejoin to the base name; the extension starts at the last dot |
| LegacyScript.SplitExtAgrees | watermark.py:158 | `splitext` and `pathlib` agree on names that neither start nor end with a dot |
| LegacyScript.OutputPathShape | watermark.py:156-169 | the output is name + marker + timestamp + extension, in the output folder or in `.` |
| LegacyScript.OutputsSkipped | watermark.py:156-169 | what the script writes is skipped by its next run |
| LegacyScript.OutputPathAgrees | watermark.py:156-169 | with an output folder and an ordinary name, the script picks the engine's output path |
| LegacyScript.FileCommand | watermark.py:154-235 | the per-file command: escaped text, slashed font path, flagged placement, quality by extension, `-y` and the output path |

## Left out

- The HTTP and FastAPI layer is not part of this model: routes, upload handling and API keys (src/watermarker/api.py, src/watermarker/main.py:282-458). The same goes for cli.py, the tests and the packaging.
- Running ffmpeg and ffprobe is not modelled, and neither are `verify_ffmpeg`, `get_dimensions`, `get_video_duration` and `os.makedirs`. The answers of `apply_watermark` and `os.path.isfile` are parameters.
- `WatermarkError` wrapping is not modelled: exception messages are opaque strings.
- hooks.py delivery (environment lookup, HTTP POST, subprocess) is not modelled. Only the event and the `to_dict()` snapshot handed to `trigger_hook` are logged.
- asyncio, executors, the hourly cleanup thread and concurrent access to the store are not modelled: everything runs sequentially. A sleep is recorded as a delay, and the clock advances by it, or by nothing when the delay is not positive.
- Time spent inside the engine is not modelled: every `utcnow()` within one attempt or one batch reads the same `now`.
- Timestamps are instants, not ISO-8601 strings.
- `uuid4` is replaced by the `id` parameter; a colliding id overwrites the entry, as the dictionary would.
- Pydantic object identity is not modelled: `Task` is a value, so `update_task_status` returning the stored object, and aliasing through it, is lost.
- TaskModel.BatchReportsProgress: progress is the integer `⌊100·idx/N⌋`. Python's `int((idx/N)*100)` can be one lower through float rounding (idx=29, N=100 gives 28). Monotonicity and the final 100 hold either way.
- Tasks.ProcessBatchTask: the FAILED branch (src/watermarker/tasks/watermark.py:262-275) is left out. Inside the loop every engine exception is caught and the store's updates do not raise, so the sequential model cannot reach it.
- LegacyTasks.ProcessBatchTask: the same unreachable FAILED branch (src/watermarker/main.py:260-273) is left out.
- Tasks.ProcessWatermarkTask: `retry_count` is a natural number; a negative starting count is not modelled. The source's recursion is kept as a recursive method whose budget `max_retries − retry_count` decreases.
- Text.Lower: `str.lower()` maps ASCII letters only; Unicode case mapping is not modelled.
- `Path` normalisation (repeated separators, `.` components, a trailing separator) is not modelled: paths are taken as already normal.
- MediaEngine.LoadConfig: creating the upload and output folders is not modelled. Numbers are parsed by `Text.ParseInt`, so a value written with non-ASCII decimal digits (`PADDING="１０"`) gives None (ValueError), where Python's `int()` reads 10.
- LegacyScript.LoadConfig: numbers are parsed by `Text.ParseInt` as well, so non-ASCII decimal digits give None where `int()` at watermark.py:45-51 succeeds.
- Text.ParseInt: only ASCII digits `0`-`9` are parsed. Python's `int()` also accepts every other Unicode decimal digit (`int('١٢') == 12`); that digit table is not modelled.
- In watermark.py the following are not modelled: `load_dotenv`, argument parsing and `--help`, the `shutil.which` check, the font-file existence check, creating the output folder, the ffprobe call whose dimensions are never used, printing, and the loop that runs each command. Each file's command is modelled by `LegacyScript.FileCommand`.
- The first, shadowed definitions of `is_valid_hex_color` and `escape_ffmpeg_text` in watermark.py (lines 20-30) are never in force. They are the engine's, modelled in `MediaEngine`.
