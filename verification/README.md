# Scheduler app: a Dafny model

This project models the backend `scheduler` app of a Django/Celery task
scheduler. The app keeps three record kinds:

- scheduled tasks, which are ONE_TIME, CRON or INTERVAL;
- their execution logs;
- user-facing notifications.

Each task also owns one django_celery_beat periodic entry, named
`scheduled-task-<id>`. That entry tells beat when to call the
`execute_scheduled_task` job.

The model is functional. A `Db.Store` holds four things:

- the task rows, keyed by id;
- the logs, in insertion order;
- the notifications, in creation order;
- the periodic entries, keyed by name.

It also holds the next row ids. Every request handler, serializer step and
Celery job is a pure function, or a method for the recovery loop. Each one
takes the store and the current time `now` (an integer), and returns the new
store together with the answer. A refused request answers with an
`ApiError` and leaves the store as it was.

`Db.Valid` is the store invariant:

- every task is stored under its own id;
- log and notification ids increase and stay below their counters;
- every notification link points at an existing row;
- every task has exactly the periodic entry `_create_periodic_task` would
  build for it;
- no task has a `next_execution`, since nothing in the app writes one.

Every operation of the app preserves it. django_celery_beat's own writes
to the entries, made when it fires them, are outside the model (see
"## Left out"), so the invariant holds for the app's writes only.

Modules follow the source files:

- `Models` covers models.py: records, defaults, `can_be_modified`,
  `can_be_deleted` and `mark_as_read`.
- `Beat` covers the periodic entries that serializers.py and views.py write.
- `Serializers` covers `validate`, `create`, `update`, `get_next_run_time`
  and `recent_logs`.
- `Views` covers the ScheduledTaskViewSet and NotificationViewSet handlers.
- `Tasks` covers `execute_scheduled_task` and `recovery_scan`.
- `Db` holds the store and its invariant.
- `Base` holds the result types and the decimal rendering of ids.

Notable behaviour of the code:

- A failed run always writes a FAILED log and a TASK_FAILED notification.
  No RETRY log is ever written.
- No code in the app sets FAILED; a failed run leaves the status alone.
  But `status` is a writable serializer field, so a client may send any
  status, FAILED and COMPLETED included.
- A CRON or INTERVAL task sent COMPLETED or FAILED is stranded. It stays
  `is_active`, its entry stays enabled and it keeps running. Yet it can no
  longer be paused, resumed, edited or deleted.
- The retry countdown grows linearly as `retry_delay * (retry_count + 1)`.
- Deleting a task deletes its logs (CASCADE). Its notifications keep existing,
  with their task and log links cleared (SET_NULL).
- `next_execution` is never written, so `get_next_run_time` of a CRON or
  INTERVAL task is always empty.
- For a ONE_TIME task, `can_be_modified` ignores the status. When such a task
  has not run and has no scheduled time, `can_be_modified` raises. That is
  modelled as `ServerError`. A task that has run is refused before the time
  is looked at.
- `can_be_deleted` depends only on the status, the schedule type and
  `executed_once`. There is no notion of a run in progress.
- `validate` does nothing when `schedule_type` is absent. This holds even
  though the created task then defaults to ONE_TIME, with no future-time
  check.
- The clocked time and the interval of a beat schedule row are NOT NULL
  columns. A ONE_TIME task without a scheduled time, or an INTERVAL task
  without an interval, therefore makes `_create_periodic_task` raise, after
  it has deleted the task's old entry. In `create` and `update` the atomic
  block rolls everything back and the request fails with a server error.
  Examples are a POST with a name and no schedule type or time, and a PATCH
  that sends a null time to a ONE_TIME task. `recovery_scan` is not atomic:
  the deleted entry stays deleted and the scan stops there.
- `partial_update` on a notification stores the raw `is_read` value. Null,
  or a value Django's BooleanField cannot convert, makes the save raise: a
  server error.
- The app adds no bounds of its own to `max_retries` or `retry_delay`.

In the failure path of `execute_scheduled_task`, the Retry exception that
`self.retry` raises is swallowed by the bare `except`. Every failed run
therefore ends by re-raising the body's error. `Tasks.RunResult.Raised`
records that error together with the countdown of the retry it asked for.

## Model

| member | source | states |
|---|---|---|
| Base.DecimalRoundTrip | backend/scheduler/serializers.py:160 | The decimal rendering of a task id used in entry names reads back as that id. |
| Beat.EntryNameInjective | backend/scheduler/serializers.py:160 | Two different task ids never share a periodic-entry name. |
| Beat.OrAny | backend/scheduler/serializers.py:180-184 | An empty cron field becomes `*`; a non-empty one is kept; the result is never empty. |
| Beat.EntryFor | backend/scheduler/serializers.py:164-207 | The entry built for a task points at that task id. Its `enabled` equals `is_active`. `one_off` is set exactly for ONE_TIME. The schedule kind matches the schedule type: clocked at `scheduled_time`, a crontab whose five fields are the task's with each empty one replaced by `*`, or every `interval_seconds`. It is defined for a task that has the time or interval its schedule row needs. |
| Beat.CreatePeriodicTask | backend/scheduler/serializers.py:159-210 | Succeeds iff a ONE_TIME task has a scheduled time and an INTERVAL task an interval, the NOT NULL columns of their schedule rows. On success exactly one entry carries the task's name, it is the task's entry, and every other entry is kept. On failure the task's entry is deleted and every other entry is kept. |
| Beat.SetEnabled | backend/scheduler/views.py:39 | Only the `enabled` flag of the named entry changes, if that entry exists. No entry is added or removed. |
| Beat.DeleteEntry | backend/scheduler/views.py:98 | The named entry is gone; every other entry is kept unchanged. |
| Models.OneTimeModifiable | backend/scheduler/models.py:60-62 | A ONE_TIME task is modifiable iff it has not run and `now` is before its scheduled time. The check raises exactly when it has not run and has no time. |
| Models.OneTimeModifiableIgnoresStatus | backend/scheduler/models.py:61-62 | For a ONE_TIME task the status never affects `can_be_modified`. |
| Models.RecurringModifiable | backend/scheduler/models.py:63 | A CRON or INTERVAL task is modifiable iff it is ACTIVE or PAUSED, and the check never raises. |
| Models.NonTerminalDeletable | backend/scheduler/models.py:65-66 | A task that is neither COMPLETED nor FAILED is deletable. |
| Models.TerminalDeletable | backend/scheduler/models.py:65-67 | A COMPLETED or FAILED task is deletable iff it is ONE_TIME and has not run. So a terminal CRON or INTERVAL task never is. |
| Models.MarkAsReadEffect | backend/scheduler/models.py:143-145 | `mark_as_read` sets `is_read`, changes no other field, and a second call changes nothing. |
| Db.EnabledMirrorsActive | backend/scheduler/serializers.py:159-207 | In a consistent store every task has its entry, pointing at it, with `enabled` equal to its `is_active`. |
| Serializers.Validate | backend/scheduler/serializers.py:89-123 | A ONE_TIME payload passes iff a scheduled time was sent and is after `now`; otherwise the error is keyed `scheduled_time` and tells a missing time from a past one. An INTERVAL payload passes iff a non-zero interval of at least 60 was sent. For CRON every absent or empty field becomes `*` and sent values are kept. Any other payload passes, and nothing else is changed. |
| Serializers.ValidateIdempotent | backend/scheduler/serializers.py:103-114 | Validating the output of `validate` again gives the same result. |
| Serializers.ValidateSkipsAbsentType | backend/scheduler/serializers.py:89-123 | A payload without `schedule_type` passes unchanged. |
| Serializers.NextRunTimeInStore | backend/scheduler/serializers.py:76-83 | In a consistent store a ONE_TIME task reports its scheduled time, which it always has, and a CRON or INTERVAL task reports none. |
| Serializers.RecentLogs | backend/scheduler/serializers.py:85-87 | Returns at most `limit` logs, all of that task, newest first, and as many as the task has up to the limit. |
| Serializers.RecentLogsNewestFirst | backend/scheduler/models.py:90-91 | In a consistent store the logs shown have strictly decreasing ids. |
| Serializers.Create | backend/scheduler/serializers.py:125-199 | Succeeds iff the task gets the time (ONE_TIME, also when no type is sent) or the interval (INTERVAL) its schedule row needs; otherwise it answers ServerError with the store unchanged. On success it inserts one task under the next id and leaves the other tasks and logs alone. Every sent field is stored as sent. Every unsent field takes the model default: empty description, ONE_TIME, ACTIVE, max retries 3, retry delay 60, each cron field `*`, no time or interval. The task is active, has not run and has zero executions. An authenticated user becomes `created_by`, otherwise the sent value. The task's entry is built, and exactly one unread SYSTEM/LOW notification linked to the task is added. |
| Serializers.CreateValid | backend/scheduler/serializers.py:125-142 | Creating a task keeps the store consistent. |
| Serializers.ApplyPayload | backend/scheduler/serializers.py:151-153 | Every sent field takes the sent value and every unsent field keeps its old value. The read-only fields never change. |
| Serializers.ApplyPayloadIdempotent | backend/scheduler/serializers.py:151-152 | Applying the same payload twice is the same as applying it once. |
| Serializers.Update | backend/scheduler/serializers.py:144-210 | Succeeds iff `can_be_modified` holds and the patched task keeps the time or interval its schedule row needs. A refused update leaves the store unchanged. It answers NotModifiable when the check fails, and ServerError when the check raises or the schedule row cannot be stored. A successful one stores the patched task and rebuilds its entry. |
| Serializers.UpdateValid | backend/scheduler/serializers.py:144-157 | Updating a task keeps the store consistent. |
| Views.CheckFields | backend/scheduler/models.py:22-48 | The field checks pass iff every field rule holds: a name is sent (a partial update may leave it out) that is not blank and has at most 255 characters; a sent interval is at least 60; each cron field has at most 20 characters and `created_by` at most 255. A reported error names a field that breaks its rule: missing or blank name, too-long name, short interval, or too-long cron field or `created_by`. |
| Views.CreateTask | backend/scheduler/serializers.py:89-142 | A POST failing the field checks or `validate` answers a validation error. Otherwise it is `create` on the validated data. It succeeds iff both checks pass and the validated data has the schedule value its row needs. A missing name answers NameRequired. A sent interval below 60 is refused for every schedule type. A refused POST leaves the store unchanged, and a successful one answers the next id. |
| Views.UntypedCreateWithoutTime | backend/scheduler/serializers.py:125-167 | A POST that passes the field checks but sends neither a schedule type nor a time answers ServerError and changes nothing. |
| Views.CreateTaskValid | backend/scheduler/serializers.py:125-142 | POST keeps the store consistent. |
| Views.UpdateTask | backend/scheduler/serializers.py:144-157 | An unknown id answers NotFound. A PUT/PATCH failing the field checks or `validate` answers a validation error. Otherwise it is `update` on the validated data. It succeeds iff both checks pass, `can_be_modified` holds and the patched task keeps the time or interval its schedule row needs. A sent interval below 60 is refused. A refused request leaves the store unchanged. |
| Views.PatchClearingTime | backend/scheduler/serializers.py:144-167 | A PATCH sending a null time to a modifiable ONE_TIME task answers ServerError and changes nothing. |
| Views.UpdateTaskValid | backend/scheduler/serializers.py:144-157 | PUT/PATCH keeps the store consistent. |
| Views.ExecutedOneTimeNotEditable | backend/scheduler/models.py:60-62 | A ONE_TIME task that has run refuses every edit and stays unchanged. |
| Views.Pause | backend/scheduler/views.py:31-50 | Succeeds iff the task exists and is ACTIVE. Unknown ids answer NotFound and other statuses answer CannotPause, both with the store unchanged. On success the task becomes PAUSED and inactive, its entry is disabled, the logs are untouched, and one SYSTEM/LOW notification linked to the task is added. |
| Views.Resume | backend/scheduler/views.py:52-71 | Succeeds iff the task exists and is PAUSED. Other cases answer NotFound or CannotResume with the store unchanged. On success the task becomes ACTIVE and active, its entry is enabled, and one SYSTEM/LOW notification is added. |
| Views.SetEnabledRebuilds | backend/scheduler/views.py:39 | In a consistent store, flipping an entry's `enabled` after an `is_active` change gives the entry a rebuild would. |
| Views.PauseValid | backend/scheduler/views.py:31-50 | Pausing keeps the store consistent. |
| Views.ResumeValid | backend/scheduler/views.py:52-71 | Resuming keeps the store consistent. |
| Views.PauseResumeRoundTrip | backend/scheduler/views.py:31-71 | Pause then resume on an ACTIVE task both succeed. The task is ACTIVE with `is_active` set and otherwise as before, the logs are unchanged, and two notifications are added. For an active task in a consistent store the tasks and entries are exactly as before. |
| Views.TerminalRecurringStranded | backend/scheduler/models.py:60-67 | An active CRON or INTERVAL task whose stored status is COMPLETED or FAILED keeps an enabled entry, yet pause, resume, edit and delete are all refused with the store unchanged. |
| Views.ExecuteNow | backend/scheduler/views.py:73-79 | Queues exactly the existing task's id and changes nothing; an unknown id answers NotFound. |
| Views.ExecuteNowQueuesRun | backend/scheduler/views.py:73-79 | The request is refused exactly when the queued run, `Tasks.ExecuteScheduledTask` on retry 0, would find no task. For an active task that run writes one log of the queued id with retry count 0. |
| Views.TaskLogs | backend/scheduler/views.py:81-86 | An existing task gets at most 50 of its own logs, newest first; an unknown id answers NotFound. |
| Views.Unlink | backend/scheduler/models.py:123-125 | Clears exactly the links to the deleted task and to its deleted logs; every other field is kept. |
| Views.Destroy | backend/scheduler/views.py:88-112 | Succeeds iff the task exists and `can_be_deleted` holds; a refusal leaves the store unchanged. On success the task, its entry and its logs go. Older notifications are kept with their links cleared, and one unlinked SYSTEM/LOW notification is added. No notification points at the task afterwards. |
| Views.DestroyValid | backend/scheduler/views.py:88-112 | Deleting keeps the store consistent, links included. |
| Views.CountUnreadZero | backend/scheduler/views.py:150 | The unread count is zero iff every notification is read. |
| Views.CountReadUnarchivedZero | backend/scheduler/views.py:155 | Nothing is left to archive iff every notification is unread or archived. |
| Views.MarkNotificationRead | backend/scheduler/views.py:136-141 | Succeeds iff a notification has that id. It then marks that notification read and changes nothing else; otherwise it answers NotFound with the store unchanged. |
| Views.PartialUpdateNotification | backend/scheduler/views.py:158-164 | An unknown id answers NotFound. Otherwise it succeeds iff the sent `is_read` is absent or converts to a boolean as Django's BooleanField does; null and other values answer ServerError with the store unchanged. On success it sets `is_read` to the converted value (true when none is sent), changes no other field, and answers the notification. |
| Views.PartialUpdateNullFails | backend/scheduler/views.py:160-162 | A PATCH sending a null `is_read` to an existing notification answers ServerError and changes nothing. |
| Views.PartialUpdateDefaultMarksRead | backend/scheduler/views.py:160 | A PATCH without `is_read` is exactly `mark_as_read`. |
| Views.ReadAll | backend/scheduler/views.py:145 | Every notification ends read, with its other fields kept, and none is left unread. |
| Views.MarkAllAsRead | backend/scheduler/views.py:143-146 | Answers the number previously unread, leaves nothing unread, changes only notifications, and leaves read ones untouched. |
| Views.MarkAllThenCount | backend/scheduler/views.py:143-151 | After `mark_all_as_read`, `unread_count` is 0, and the answer was the unread count before. |
| Views.UnreadCountZero | backend/scheduler/views.py:148-151 | `unread_count` is at most the number of notifications, and zero iff all are read. |
| Views.ArchiveRead | backend/scheduler/views.py:155 | A notification ends archived iff it was archived or read; nothing else changes, and nothing read stays unarchived. |
| Views.ArchiveAllRead | backend/scheduler/views.py:153-156 | Answers the number of read, unarchived notifications, changes only notifications, and never touches an unread one. |
| Views.ArchiveAllReadIdempotent | backend/scheduler/views.py:153-156 | A second `archive_all_read` archives nothing and changes nothing. |
| Views.MarkNotificationReadValid | backend/scheduler/views.py:136-141 | `mark_read` keeps the store consistent. |
| Views.PartialUpdateNotificationValid | backend/scheduler/views.py:158-164 | `partial_update` keeps the store consistent. |
| Views.MarkAllAsReadValid | backend/scheduler/views.py:143-146 | `mark_all_as_read` keeps the store consistent. |
| Views.ArchiveAllReadValid | backend/scheduler/views.py:153-156 | `archive_all_read` keeps the store consistent. |
| Tasks.RetryBackoff | backend/scheduler/tasks.py:96-100 | A retry is asked for iff `retry_count < max_retries`. The first waits `retry_delay`, and each next one waits `retry_delay` longer. |
| Tasks.RetryBackoffIncreasing | backend/scheduler/tasks.py:98-99 | With a positive delay, a later retry's countdown is strictly larger. |
| Tasks.RequeuedBelowLimit | backend/scheduler/tasks.py:9-100 | Celery queues a failed run's retry iff its retry count is below both the task's `max_retries` and the job's `max_retries` of 3. |
| Tasks.ExecuteScheduledTask | backend/scheduler/tasks.py:10-104 | An unknown id is not found and an inactive task is skipped, both writing nothing. An active run adds one to `total_executions` and sets `last_execution` to `now`, before the body. It adds exactly one log, with this retry count, stamped at `done`, the time the body ended; the run's first notification carries `done` too. A success writes a SUCCESS log and a TASK_EXECUTED/MEDIUM notification linked to the task and log, and answers the new total. A ONE_TIME task is also completed, its entry disabled, and a TASK_COMPLETED/LOW notification added; other tasks keep status and entry. A failure writes a FAILED log carrying the error and retry count and a TASK_FAILED/HIGH notification. It leaves the status alone and re-raises with the retry decision. |
| Tasks.ExecuteValid | backend/scheduler/tasks.py:10-104 | Every run keeps the store consistent. |
| Tasks.OneTimeRunsOnce | backend/scheduler/tasks.py:45-59 | After a successful run a ONE_TIME task is COMPLETED and `executed_once`. Any later run skips it with nothing written. Recovery no longer counts it as missed, and it can no longer be edited or deleted. |
| Tasks.RecurringRunIgnoresStatus | backend/scheduler/tasks.py:10-59 | An active CRON or INTERVAL task runs whatever its status, and a successful run keeps its status, `is_active` and every entry. |
| Tasks.FailingRunsCount | backend/scheduler/tasks.py:9-22 | A body that always fails, followed through the retries Celery queues from retry `k`, runs `min(max_retries, 3) - k + 1` times (once when no retry is left). |
| Tasks.FailedRunIsExecute | backend/scheduler/tasks.py:71-104 | A failed run of an active task counts one start at its own time, appends one FAILED log stamped when the body raised carrying the error and retry count and one TASK_FAILED/HIGH notification linked to the task and log, and re-raises asking for the retry countdown. |
| Tasks.FailingRunsKeep | backend/scheduler/tasks.py:71-104 | A chain of failing runs keeps the set of tasks and every periodic entry. |
| Tasks.FailingRunsTask | backend/scheduler/tasks.py:9-19 | Over such a chain, where each retry starts at its own later time, every run adds one to `total_executions`. `last_execution` ends as the start time of the chain's last run, and no other field of the task changes. |
| Tasks.FailingRunsRows | backend/scheduler/tasks.py:71-94 | Each run of such a chain appends one FAILED log, numbered by its retry count and stamped with the time that run's body raised, and one TASK_FAILED/HIGH notification, after the existing rows. |
| Tasks.FailingTaskAttempts | backend/scheduler/tasks.py:9-104 | From the first run, a task that always fails runs `min(max_retries, 3) + 1` times (once when `max_retries` is 0 or less). It writes that many FAILED logs, one per retry count, each at the time that retry's body raised. It keeps its status, and ends with `last_execution` at the last retry's start. |
| Tasks.StuckUnderValid | backend/scheduler/tasks.py:132-139 | In a consistent store a task is stuck iff it is an active, ACTIVE CRON or INTERVAL task. |
| Tasks.DispatchOverdue | backend/scheduler/tasks.py:111-130 | Dispatches each overdue task exactly once: a ONE_TIME task whose time has come, not run, active and ACTIVE. Each gets one RECOVERY/HIGH notification linked to it, and nothing but notifications changes. |
| Tasks.RebuildStuck | backend/scheduler/tasks.py:132-144 | Changes nothing but entries, and never an entry outside the stuck tasks'. It raises iff some stuck task lacks the interval its schedule row needs. Without a raise it rebuilds the entry of every stuck task. On a raise it names such a task, whose entry is gone. When every entry is already the one a rebuild gives, it changes nothing and does not raise. |
| Tasks.RecoveryScan | backend/scheduler/tasks.py:107-149 | Dispatches exactly the overdue tasks once each, with one RECOVERY/HIGH notification each. It returns iff every stuck task can have its schedule row. It then reports `recovered_tasks` and `stuck_tasks` and rebuilds their entries. Otherwise it raises at a stuck task without an interval, whose entry is gone. Entries outside the stuck tasks' are kept, tasks and logs are untouched, and on a consistent store it returns, keeps the entries and keeps consistency. |

## Left out

- Celery dispatch is not modelled: `delay`, the retry message, worker concurrency, and the soft and hard time limits of the job. A run reports the retry it asked for, and the scan reports the ids it dispatched. In a chain of retries the start time of each run is an input, the `clock` of `Tasks.FailingRuns`, and so is the time its body raised, `ends`. The model does not relate either to the countdown Celery waits.
- The job decorator's cap of three retries is applied where a retry is followed (`Tasks.Requeued`). `Tasks.ExecuteScheduledTask` records the retry the run asks for, before Celery's cap.
- Tasks.ExecuteScheduledTask: the body's outcome is an input, because `execute_task_logic` sleeps and fails at random. An exception raised outside the body (a failing save, say) is not modelled.
- Tasks.ExecuteScheduledTask: the log and every notification written after the body carry one time, `done`. In the source each `auto_now_add` reads the clock anew, so they are instants apart. `done` is an input and is not constrained to be at or after `now`.
- django_celery_beat's own writes to the entries are not modelled. When beat fires an entry it updates `last_run_at` and `total_run_count`, and it disables a fired `one_off` entry. `Db.Valid`, and with it `Db.EnabledMirrorsActive`, is an invariant of the app's writes only: once beat has disabled a ONE_TIME task's entry, that entry no longer matches the one the app would build.
- Notification titles are not checked against their 255-character column. A title is a prefix of 13 to 18 characters followed by the task name, so a name of 238 characters or more can make it longer than that. Whether the database then refuses the row depends on the backend, which is not part of this model. This concerns the notices of create, pause, resume and destroy, a run's executed, completed and failed notices, and recovery's notice.
- Views.CheckFields: a `schedule_type` or `status` outside its choices cannot be expressed in the model's payload, whose fields are typed by the choices; DRF answers 400 for it.
- Tasks.RecoveryScan: the overdue tasks are dispatched in no fixed order, not by `-created_at`. The stuck tasks are rebuilt in no fixed order, so when a rebuild raises the model does not say which other stuck entries were rebuilt before it.
- Serializers.RecentLogs: the `-executed_at` ordering is taken as newest-inserted first, so ties between equal timestamps are not modelled.
- Views.TaskLogs: same ordering assumption as `recent_logs`.
- The cron next-fire computation is not modelled. It belongs to django_celery_beat, and nothing in the app writes `next_execution`.
- Texts and wall-clock floats are not modelled: notification and log messages, `execution_time`, the traceback in `error_details`, `updated_at`, `expires_at` and `time_ago`. Notification titles are kept; timestamps are integers.
- Periodic entries keep only the schedule, `one_off`, the task id argument and `enabled`. The `task` path and the `description` are not kept. The schedule rows that every rebuild creates are never deleted in the source; they are not modelled as separate rows.
- Views.CheckFields: DRF's trimming of whitespace in character fields is not modelled. When several fields fail at once, only the first failing field is reported.
- Views.CheckFields: the integer-range validators DRF derives from the database for `interval_seconds`, `max_retries` and `retry_delay` are not modelled, because their bounds depend on the database backend, which is not part of this model. A value past the backend's range passes the model's checks, where DRF answers 400.
- Views.CheckFields: an explicit null for a non-nullable field, such as `PATCH {"max_retries": null}`, cannot be expressed in the model's payload; DRF answers 400 for it.
- Serializers.Create: a create that is rolled back leaves the next task id as it was. A database whose id sequence is not transactional would use up the id.
- HTTP details are not modelled: status codes, response bodies, authentication beyond the user name, search, filtering (filters.py), routing (urls.py), pagination, the default list and retrieve actions of ScheduledTaskViewSet, the read-only ExecutionLogViewSet, and NotificationViewSet's default list, retrieve, create, update (PUT) and destroy actions.
- `transaction.atomic` is modelled only as its effect: every handler is one atomic step of the store, and a handler that raises leaves the store as it was.
- The frontend is not modelled; it only presents data and repeats the server's checks.
