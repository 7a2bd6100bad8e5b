/** The two Celery jobs of the scheduler app: `execute_scheduled_task`, which
    beat calls with a task id, and `recovery_scan`, which re-dispatches missed
    one-time tasks and rebuilds the entries of recurring ones.

    The user's job body (`execute_task_logic`) draws random numbers, so its
    outcome is an input here. Dispatching a job (`delay`, `retry`) is not
    performed: the run reports which retry it asked for, and the scan
    reports which task ids it dispatched.
 */
module Tasks {
  import opened Base
  import opened Models
  import opened Beat
  import opened Db

  /** What the job body did: return, or raise with this message. */
  datatype BodyOutcome = BodySucceeded | BodyRaised(error: string)

  /** What a run of `execute_scheduled_task` ends with. `Raised` re-raises the
      body's error; its countdown is the retry it asked for, if any. */
  datatype RunResult =
    | TaskNotFound
    | SkippedInactive
    | Succeeded(totalExecutions: nat)
    | Raised(error: string, retryCountdown: Option<int>)

  datatype Run = Run(store: Store, result: RunResult)

  /** The countdown of the retry a failed run asks for, when it asks for one:
      only below the task's `max_retries`, and later for every retry. */
  function RetryCountdown(retryCount: nat, maxRetries: int, retryDelay: int): Option<int> {
    if retryCount < maxRetries then Some(retryDelay * (retryCount + 1)) else None
  }

  lemma RetryBackoff(retryCount: nat, maxRetries: int, retryDelay: int)
    ensures RetryCountdown(retryCount, maxRetries, retryDelay).Some? <==> retryCount < maxRetries
    ensures 0 < maxRetries ==> RetryCountdown(0, maxRetries, retryDelay) == Some(retryDelay)
    ensures RetryCountdown(retryCount + 1, maxRetries, retryDelay).Some? ==>
              RetryCountdown(retryCount, maxRetries, retryDelay).Some?
              && RetryCountdown(retryCount + 1, maxRetries, retryDelay).value
                 == RetryCountdown(retryCount, maxRetries, retryDelay).value + retryDelay
  {
  }

  /** With a positive delay, a later retry waits strictly longer. */
  lemma RetryBackoffIncreasing(a: nat, b: nat, maxRetries: int, retryDelay: int)
    requires a < b < maxRetries && 0 < retryDelay
    ensures RetryCountdown(a, maxRetries, retryDelay).Some?
    ensures RetryCountdown(b, maxRetries, retryDelay).Some?
    ensures RetryCountdown(a, maxRetries, retryDelay).value
            < RetryCountdown(b, maxRetries, retryDelay).value
  {
    MulGrows(retryDelay, a + 1, b - a);
  }

  lemma {:induction false} MulGrows(d: int, x: int, k: nat)
    requires 0 < d && 0 < k
    ensures d * x < d * (x + k)
    decreases k
  {
    assert d * (x + k) == d * (x + k - 1) + d;
    if k > 1 {
      MulGrows(d, x, k - 1);
    }
  }

  /** The task as a run leaves it before the body runs. */
  predicate Started(before: Task, after: Task, now: int) {
    after == before.(lastExecution := Some(now), totalExecutions := before.totalExecutions + 1)
  }

  /** The fields a ONE_TIME task's success sets. */
  function Complete(t: Task): Task {
    t.(executedOnce := true, isActive := false, status := Completed)
  }

  const ExecutedTitle: string := "\U{2713} Task Executed: "
  const CompletedTitle: string := "\U{2713} Task Completed: "
  const FailedTitle: string := "\U{2717} Task Failed: "
  const RecoveryTitle: string := "Task Recovery: "

  /** `execute_scheduled_task(task_id)` on its `retryCount`-th retry, with the
      body ending in `body`. `now` is read before the body, for
      `last_execution`; `done` is when the body has ended, the time the log
      and notices written after it carry. */
  function ExecuteScheduledTask(s: Store, id: nat, retryCount: nat, body: BodyOutcome,
                                now: int, done: int): (r: Run)
    ensures id !in s.tasks ==> r == Run(s, TaskNotFound)
    ensures id in s.tasks && !s.tasks[id].isActive ==> r == Run(s, SkippedInactive)
    ensures id in s.tasks && s.tasks[id].isActive ==>
              && r.store.tasks.Keys == s.tasks.Keys
              && (forall k :: k in s.tasks && k != id ==> r.store.tasks[k] == s.tasks[k])
              && ExtendedBy(s.logs, r.store.logs, 1)
              && var l := r.store.logs[|s.logs|];
                 l.id == s.nextLogId && l.taskId == id && l.executedAt == done
                 && l.retryCount == retryCount
    // success: a SUCCESS log and a TASK_EXECUTED notice; a ONE_TIME task completes
    ensures id in s.tasks && s.tasks[id].isActive && body.BodySucceeded? ==>
              var t := s.tasks[id];
              && r.store.logs[|s.logs|].status == Success
              && r.store.logs[|s.logs|].errorDetails.None?
              && r.result == Succeeded(t.totalExecutions + 1)
              && ExtendedBy(s.notifications, r.store.notifications,
                            if t.scheduleType == OneTime then 2 else 1)
              && Emitted(r.store.notifications[|s.notifications|], TaskExecuted, Medium,
                         Some(id), Some(s.nextLogId))
              && r.store.notifications[|s.notifications|].createdAt == done
              && (if t.scheduleType == OneTime then
                    && Started(Complete(t), r.store.tasks[id], now)
                    && r.store.periodic == SetEnabled(s.periodic, EntryName(id), false)
                    && Emitted(r.store.notifications[|s.notifications| + 1], TaskCompleted, Low,
                               Some(id), None)
                  else
                    && Started(t, r.store.tasks[id], now)
                    && r.store.periodic == s.periodic)
    // failure: a FAILED log carrying the error, a TASK_FAILED notice, maybe a retry
    ensures id in s.tasks && s.tasks[id].isActive && body.BodyRaised? ==>
              var t := s.tasks[id];
              && Started(t, r.store.tasks[id], now)
              && r.store.periodic == s.periodic
              && r.store.logs[|s.logs|].status == Failure
              && r.store.logs[|s.logs|].errorDetails == Some(ErrorDetails(body.error, retryCount))
              && ExtendedBy(s.notifications, r.store.notifications, 1)
              && Emitted(r.store.notifications[|s.notifications|], TaskFailed, High,
                         Some(id), Some(s.nextLogId))
              && r.store.notifications[|s.notifications|].createdAt == done
              && r.result == Raised(body.error, RetryCountdown(retryCount, t.maxRetries, t.retryDelay))
  {
    if id !in s.tasks then Run(s, TaskNotFound)
    else
      var t := s.tasks[id];
      if !t.isActive then Run(s, SkippedInactive)
      else
        var s1 := StartRun(s, id, now);
        match body
        case BodySucceeded =>
          var s3 := Record(s1, id, Success, None, retryCount,
                           ExecutedTitle + t.name, TaskExecuted, Medium, done);
          if t.scheduleType == OneTime then Run(Finish(s3, id, done), Succeeded(t.totalExecutions + 1))
          else Run(s3, Succeeded(t.totalExecutions + 1))
        case BodyRaised(e) =>
          var s3 := Record(s1, id, Failure, Some(ErrorDetails(e, retryCount)), retryCount,
                           FailedTitle + t.name, TaskFailed, High, done);
          Run(s3, Raised(e, RetryCountdown(retryCount, t.maxRetries, t.retryDelay)))
  }

  /** The task row as a run saves it before the body runs. */
  function StartRun(s: Store, id: nat, now: int): (r: Store)
    requires id in s.tasks
    ensures r == s.(tasks := r.tasks)
    ensures r.tasks.Keys == s.tasks.Keys && Started(s.tasks[id], r.tasks[id], now)
    ensures forall k :: k in s.tasks && k != id ==> r.tasks[k] == s.tasks[k]
  {
    var t := s.tasks[id];
    s.(tasks := s.tasks[id := t.(lastExecution := Some(now), totalExecutions := t.totalExecutions + 1)])
  }

  /** The log, and the notice linked to it and to the task, that a run writes
      once its body has ended. */
  function Record(s: Store, id: nat, status: LogStatus, details: Option<ErrorDetails>,
                  retryCount: nat, title: string, category: Category, priority: Priority,
                  now: int): (r: Store)
    ensures r.tasks == s.tasks && r.periodic == s.periodic
    ensures r.nextTaskId == s.nextTaskId && r.nextLogId == s.nextLogId + 1
    ensures ExtendedBy(s.logs, r.logs, 1)
    ensures r.logs[|s.logs|] == ExecutionLog(s.nextLogId, id, now, status, details, retryCount)
    ensures ExtendedBy(s.notifications, r.notifications, 1)
    ensures Emitted(r.notifications[|s.notifications|], category, priority, Some(id), Some(s.nextLogId))
  {
    Notify(AppendLog(s, id, status, details, retryCount, now), title, category, priority,
           Some(id), Some(s.nextLogId), now)
  }

  /** What a successful run does to a ONE_TIME task: complete it, disable its
      entry, and say so. */
  function Finish(s: Store, id: nat, now: int): (r: Store)
    requires id in s.tasks
    ensures r.tasks == s.tasks[id := Complete(s.tasks[id])]
    ensures r.periodic == SetEnabled(s.periodic, EntryName(id), false)
    ensures r.logs == s.logs && r.nextLogId == s.nextLogId
    ensures ExtendedBy(s.notifications, r.notifications, 1)
    ensures Emitted(r.notifications[|s.notifications|], TaskCompleted, Low, Some(id), None)
  {
    Notify(s.(tasks := s.tasks[id := Complete(s.tasks[id])],
              periodic := SetEnabled(s.periodic, EntryName(id), false)),
           CompletedTitle + s.tasks[id].name, TaskCompleted, Low, Some(id), None, now)
  }

  /** Saving the started task keeps a consistent store consistent: the
      periodic entry does not depend on the execution counters. */
  lemma StartValid(s: Store, id: nat, now: int)
    requires Valid(s) && id in s.tasks
    ensures Valid(StartRun(s, id, now))
  {
    var r := StartRun(s, id, now);
    var u := r.tasks[id];
    ReplaceTaskKeyed(s, u);
    LogsKept(s, r);
    NotificationsKept(s, r);
    SameEntryPeriodic(s, u);
  }

  /** A task may change in ways its periodic entry does not see. */
  lemma SameEntryPeriodic(s: Store, u: Task)
    requires PeriodicConsistent(s)
    requires u.id in s.tasks && Schedulable(u) && EntryFor(u) == EntryFor(s.tasks[u.id])
    ensures PeriodicConsistent(s.(tasks := s.tasks[u.id := u]))
  {
    ReplaceTaskPeriodic(s, u);
    assert s.periodic[EntryName(u.id) := EntryFor(u)] == s.periodic;
  }

  lemma RecordValid(s: Store, id: nat, status: LogStatus, details: Option<ErrorDetails>,
                    retryCount: nat, title: string, category: Category, priority: Priority,
                    now: int)
    requires Valid(s) && id in s.tasks
    ensures Valid(Record(s, id, status, details, retryCount, title, category, priority, now))
  {
    AppendLogValid(s, id, status, details, retryCount, now);
    NotifyValid(AppendLog(s, id, status, details, retryCount, now), title, category, priority,
                Some(id), Some(s.nextLogId), now);
  }

  /** Disabling the entry of a consistent store's task is rebuilding it from
      the completed task. */
  lemma FinishValid(s: Store, id: nat, now: int)
    requires Valid(s) && id in s.tasks
    ensures Valid(Finish(s, id, now))
  {
    var done := Complete(s.tasks[id]);
    var s4 := s.(tasks := s.tasks[id := done],
                 periodic := SetEnabled(s.periodic, EntryName(id), false));
    assert SetEnabled(s.periodic, EntryName(id), false) == s.periodic[EntryName(id) := EntryFor(done)];
    ReplaceTaskValid(s, done);
    NotifyValid(s4, CompletedTitle + s.tasks[id].name, TaskCompleted, Low, Some(id), None, now);
  }

  lemma ExecuteValid(s: Store, id: nat, retryCount: nat, body: BodyOutcome, now: int, done: int)
    requires Valid(s)
    ensures Valid(ExecuteScheduledTask(s, id, retryCount, body, now, done).store)
  {
    if id in s.tasks && s.tasks[id].isActive {
      var t := s.tasks[id];
      var s1 := StartRun(s, id, now);
      StartValid(s, id, now);
      match body
      case BodySucceeded =>
        RecordValid(s1, id, Success, None, retryCount, ExecutedTitle + t.name, TaskExecuted, Medium, done);
        if t.scheduleType == OneTime {
          FinishValid(Record(s1, id, Success, None, retryCount, ExecutedTitle + t.name,
                             TaskExecuted, Medium, done), id, done);
        }
      case BodyRaised(e) =>
        RecordValid(s1, id, Failure, Some(ErrorDetails(e, retryCount)), retryCount,
                    FailedTitle + t.name, TaskFailed, High, done);
    }
  }

  /** Once a ONE_TIME task has run successfully it is finished: any later run
      is skipped, recovery no longer counts it as missed, it can no longer be
      edited, and, being COMPLETED, it can no longer be deleted. */
  lemma OneTimeRunsOnce(s: Store, id: nat, retryCount: nat, later: nat, body: BodyOutcome,
                        now: int, done: int, whenever: int, whenDone: int)
    requires id in s.tasks && s.tasks[id].isActive && s.tasks[id].scheduleType == OneTime
    ensures var r := ExecuteScheduledTask(s, id, retryCount, BodySucceeded, now, done).store;
            && id in r.tasks
            && r.tasks[id].status == Completed && r.tasks[id].executedOnce
            && ExecuteScheduledTask(r, id, later, body, whenever, whenDone) == Run(r, SkippedInactive)
            && !Overdue(r.tasks[id], whenever)
            && CanBeModified(r.tasks[id], whenever) == Some(false)
            && !CanBeDeleted(r.tasks[id])
  {
  }

  /** The job never reads the status of a CRON or INTERVAL task: an active
      one runs whatever its status says, and a successful run leaves the
      status and the entry as they were. */
  lemma RecurringRunIgnoresStatus(s: Store, id: nat, retryCount: nat, now: int, done: int)
    requires id in s.tasks && s.tasks[id].isActive && s.tasks[id].scheduleType != OneTime
    ensures var r := ExecuteScheduledTask(s, id, retryCount, BodySucceeded, now, done);
            && r.result == Succeeded(s.tasks[id].totalExecutions + 1)
            && id in r.store.tasks && r.store.tasks[id].status == s.tasks[id].status
            && r.store.tasks[id].isActive
            && r.store.periodic == s.periodic
  {
  }

  // ---------------------------------------------------------------------------
  // A run that keeps failing
  // ---------------------------------------------------------------------------

  datatype Chain = Chain(store: Store, runs: nat)

  /** The job's own `max_retries`: Celery refuses a retry that would be past
      the third and raises the error instead. */
  const JobMaxRetries: nat := 3

  /** Whether Celery queues the retry a failed run on retry `retryCount` asks
      for. */
  predicate Requeued(retryCount: nat, countdown: Option<int>) {
    countdown.Some? && retryCount < JobMaxRetries
  }

  /** How many retries a task gets: its own `max_retries`, capped by the
      job's. */
  function RetryLimit(maxRetries: int): int {
    if maxRetries < JobMaxRetries then maxRetries else JobMaxRetries
  }

  /** A failed run is requeued exactly below both limits. */
  lemma RequeuedBelowLimit(retryCount: nat, maxRetries: int, retryDelay: int)
    ensures Requeued(retryCount, RetryCountdown(retryCount, maxRetries, retryDelay))
            <==> retryCount < RetryLimit(maxRetries)
  {
  }

  /** The store after a run on retry `retryCount` of an active task, started
      at `now`, whose body raised `error` at `done`: the failure branch of
      `ExecuteScheduledTask`. */
  function FailedRun(s: Store, id: nat, retryCount: nat, error: string, now: int, done: int): Store
    requires id in s.tasks
  {
    var t := s.tasks[id];
    var l := ExecutionLog(s.nextLogId, id, done, Failure, Some(ErrorDetails(error, retryCount)),
                          retryCount);
    var n := Notification(s.nextNotificationId, FailedTitle + t.name, TaskFailed, High, Some(id),
                          Some(s.nextLogId), false, false, done);
    s.(tasks := s.tasks[id := t.(lastExecution := Some(now), totalExecutions := t.totalExecutions + 1)],
       logs := s.logs + [l], nextLogId := s.nextLogId + 1,
       notifications := s.notifications + [n], nextNotificationId := s.nextNotificationId + 1)
  }

  /** The countdown of the retry a failed run of `t` on retry `retryCount`
      asks for. */
  function FailedCountdown(t: Task, retryCount: nat): Option<int> {
    RetryCountdown(retryCount, t.maxRetries, t.retryDelay)
  }

  /** A failed run of an active task is `FailedRun`, re-raising with the
      retry it asks for. */
  lemma FailedRunIsExecute(s: Store, id: nat, retryCount: nat, error: string, now: int, done: int)
    requires id in s.tasks && s.tasks[id].isActive
    ensures ExecuteScheduledTask(s, id, retryCount, BodyRaised(error), now, done)
            == Run(FailedRun(s, id, retryCount, error, now, done),
                   Raised(error, FailedCountdown(s.tasks[id], retryCount)))
  {
  }

  /** One failed run, reduced to what a chain of them needs of the task. */
  lemma FailedRunTask(s: Store, id: nat, retryCount: nat, error: string, now: int, done: int)
    requires id in s.tasks && s.tasks[id].isActive
    ensures var r := FailedRun(s, id, retryCount, error, now, done);
            && r.tasks.Keys == s.tasks.Keys
            && Started(s.tasks[id], r.tasks[id], now)
            && r.periodic == s.periodic
  {
  }

  /** Run the job on retry `retryCount` with a body that always raises, and
      keep following the retries Celery queues, which are those below
      `RetryLimit` (`RequeuedBelowLimit`). A worker picks up the run on
      retry `k` at `clock(k)`, and its body raises at `ends(k)`. Celery holds
      each retry back for the countdown the previous run asked for, so these
      are different instants; nothing below depends on how far apart they
      are. */
  function FailingRuns(s: Store, id: nat, retryCount: nat, error: string,
                       clock: nat -> int, ends: nat -> int): (r: Chain)
    requires id in s.tasks && s.tasks[id].isActive
    ensures r.runs >= 1
    decreases if retryCount < JobMaxRetries then JobMaxRetries - retryCount else 0
  {
    var next := FailedRun(s, id, retryCount, error, clock(retryCount), ends(retryCount));
    FailedRunTask(s, id, retryCount, error, clock(retryCount), ends(retryCount));
    if retryCount < RetryLimit(s.tasks[id].maxRetries) then
      var rest := FailingRuns(next, id, retryCount + 1, error, clock, ends);
      Chain(rest.store, rest.runs + 1)
    else
      Chain(next, 1)
  }

  /** When the last run of a chain of `runs` runs from retry `retryCount`
      starts. */
  function LastStart(clock: nat -> int, retryCount: nat, runs: nat): int
    requires runs >= 1
  {
    clock(retryCount + runs - 1)
  }

  lemma LastStartFirst(clock: nat -> int, retryCount: nat)
    ensures LastStart(clock, retryCount, 1) == clock(retryCount)
  {
    assert retryCount + 1 - 1 == retryCount;
  }

  lemma LastStartStep(clock: nat -> int, retryCount: nat, runs: nat)
    requires runs >= 1
    ensures LastStart(clock, retryCount, runs + 1) == LastStart(clock, retryCount + 1, runs)
  {
    var k := retryCount + runs;
    assert retryCount + (runs + 1) - 1 == k && (retryCount + 1) + runs - 1 == k;
  }

  /** How many runs a chain of failures starting at retry `retryCount` makes. */
  function Attempts(retryCount: nat, maxRetries: int): nat {
    if retryCount < RetryLimit(maxRetries) then RetryLimit(maxRetries) - retryCount + 1 else 1
  }

  /** From index `from` on, `logs` holds FAILED logs of task `id` whose retry
      counts go up by one from `retryCount`, each written when its run's body
      had ended. */
  ghost predicate FailureLogs(logs: seq<ExecutionLog>, from: nat, id: nat, retryCount: nat,
                              ends: nat -> int) {
    forall i :: from <= i < |logs| ==>
      && logs[i].status == Failure && logs[i].taskId == id
      && logs[i].retryCount == retryCount + (i - from)
      && logs[i].executedAt == ends(retryCount + (i - from))
  }

  /** From index `from` on, `ns` holds TASK_FAILED notices of task `id`. */
  ghost predicate FailureNotices(ns: seq<Notification>, from: nat, id: nat) {
    forall i :: from <= i < |ns| ==>
      ns[i].category == TaskFailed && ns[i].priority == High && ns[i].taskId == Some(id)
  }

  /** One failed run, reduced to what a chain of them needs of the rows. */
  lemma FailedRunRows(s: Store, id: nat, retryCount: nat, error: string,
                      clock: nat -> int, ends: nat -> int)
    requires id in s.tasks && s.tasks[id].isActive
    ensures var r := FailedRun(s, id, retryCount, error, clock(retryCount), ends(retryCount));
            && r.tasks.Keys == s.tasks.Keys
            && r.tasks[id].isActive
            && ExtendedBy(s.logs, r.logs, 1)
            && FailureLogs(r.logs, |s.logs|, id, retryCount, ends)
            && ExtendedBy(s.notifications, r.notifications, 1)
            && FailureNotices(r.notifications, |s.notifications|, id)
  {
    var done := ends(retryCount);
    var r := FailedRun(s, id, retryCount, error, clock(retryCount), done);
    assert r.logs[|s.logs|].executedAt == done;
    assert retryCount + (|s.logs| - |s.logs|) == retryCount;
  }

  lemma FailureLogsCons(a: seq<ExecutionLog>, b: seq<ExecutionLog>, c: seq<ExecutionLog>,
                        k: nat, id: nat, retryCount: nat, ends: nat -> int)
    requires ExtendedBy(a, b, 1) && ExtendedBy(b, c, k)
    requires FailureLogs(b, |a|, id, retryCount, ends)
    requires FailureLogs(c, |b|, id, retryCount + 1, ends)
    ensures FailureLogs(c, |a|, id, retryCount, ends)
  {
    forall i | |a| <= i < |c|
      ensures && c[i].status == Failure && c[i].taskId == id
              && c[i].retryCount == retryCount + (i - |a|)
              && c[i].executedAt == ends(retryCount + (i - |a|))
    {
      if i == |a| {
        assert c[i] == c[..|b|][i];
      } else {
        assert retryCount + 1 + (i - |b|) == retryCount + (i - |a|);
      }
    }
  }

  lemma FailureNoticesCons(a: seq<Notification>, b: seq<Notification>, c: seq<Notification>,
                           k: nat, id: nat)
    requires ExtendedBy(a, b, 1) && ExtendedBy(b, c, k)
    requires FailureNotices(b, |a|, id) && FailureNotices(c, |b|, id)
    ensures FailureNotices(c, |a|, id)
  {
    forall i | |a| <= i < |c|
      ensures c[i].category == TaskFailed && c[i].priority == High && c[i].taskId == Some(id)
    {
      if i == |a| {
        assert c[i] == c[..|b|][i];
      }
    }
  }

  /** A task whose body always fails runs `Attempts` times. */
  lemma {:induction false} FailingRunsCount(s: Store, id: nat, retryCount: nat, error: string,
                                            clock: nat -> int, ends: nat -> int)
    requires id in s.tasks && s.tasks[id].isActive
    ensures FailingRuns(s, id, retryCount, error, clock, ends).runs
            == Attempts(retryCount, s.tasks[id].maxRetries)
    decreases if retryCount < JobMaxRetries then JobMaxRetries - retryCount else 0
  {
    var t := s.tasks[id];
    if retryCount < RetryLimit(t.maxRetries) {
      var next := FailedRun(s, id, retryCount, error, clock(retryCount), ends(retryCount));
      FailedRunTask(s, id, retryCount, error, clock(retryCount), ends(retryCount));
      FailingRunsCount(next, id, retryCount + 1, error, clock, ends);
      assert FailingRuns(s, id, retryCount, error, clock, ends).runs
             == FailingRuns(next, id, retryCount + 1, error, clock, ends).runs + 1;
    } else {
      assert FailingRuns(s, id, retryCount, error, clock, ends).runs == 1;
    }
  }

  /** `after` is `before` once `runs` runs have been counted, the last of
      them starting at `last`: the last execution and the counter moved,
      every other field as it was. */
  predicate RunsCounted(before: Task, after: Task, runs: nat, last: int) {
    && after.lastExecution == Some(last)
    && after.totalExecutions == before.totalExecutions + runs
    && after.(lastExecution := before.lastExecution, totalExecutions := before.totalExecutions) == before
  }

  lemma RunsCountedStep(t: Task, u: Task, w: Task, k: nat, now: int, last: int)
    requires Started(t, u, now) && RunsCounted(u, w, k, last)
    ensures RunsCounted(t, w, k + 1, last)
  {
  }

  /** A failing chain keeps the task keys and the periodic entries. */
  lemma {:induction false} FailingRunsKeep(s: Store, id: nat, retryCount: nat, error: string,
                                           clock: nat -> int, ends: nat -> int)
    requires id in s.tasks && s.tasks[id].isActive
    ensures var c := FailingRuns(s, id, retryCount, error, clock, ends);
            c.store.tasks.Keys == s.tasks.Keys && c.store.periodic == s.periodic
    decreases if retryCount < JobMaxRetries then JobMaxRetries - retryCount else 0
  {
    var next := FailedRun(s, id, retryCount, error, clock(retryCount), ends(retryCount));
    FailedRunTask(s, id, retryCount, error, clock(retryCount), ends(retryCount));
    if retryCount < RetryLimit(s.tasks[id].maxRetries) {
      FailingRunsKeep(next, id, retryCount + 1, error, clock, ends);
    }
  }

  /** Each run of a failing chain adds one to the execution counter, and the
      last execution is the start of the chain's last run; nothing else
      about the task changes. */
  lemma {:induction false} FailingRunsTask(s: Store, id: nat, retryCount: nat, error: string,
                                           clock: nat -> int, ends: nat -> int)
    requires id in s.tasks && s.tasks[id].isActive
    ensures var c := FailingRuns(s, id, retryCount, error, clock, ends);
            && id in c.store.tasks
            && RunsCounted(s.tasks[id], c.store.tasks[id], c.runs, LastStart(clock, retryCount, c.runs))
    decreases if retryCount < JobMaxRetries then JobMaxRetries - retryCount else 0
  {
    var next := FailedRun(s, id, retryCount, error, clock(retryCount), ends(retryCount));
    FailedRunTask(s, id, retryCount, error, clock(retryCount), ends(retryCount));
    if retryCount < RetryLimit(s.tasks[id].maxRetries) {
      var c := FailingRuns(next, id, retryCount + 1, error, clock, ends);
      assert FailingRuns(s, id, retryCount, error, clock, ends) == Chain(c.store, c.runs + 1);
      FailingRunsTask(next, id, retryCount + 1, error, clock, ends);
      LastStartStep(clock, retryCount, c.runs);
      RunsCountedStep(s.tasks[id], next.tasks[id], c.store.tasks[id], c.runs,
                      clock(retryCount), LastStart(clock, retryCount + 1, c.runs));
    } else {
      LastStartFirst(clock, retryCount);
      assert FailingRuns(s, id, retryCount, error, clock, ends) == Chain(next, 1);
    }
  }

  /** Each run of a failing chain writes one FAILED log, numbered by its retry
      count and stamped with the time its body raised, and one TASK_FAILED
      notice, after the rows already there. */
  lemma {:induction false} FailingRunsRows(s: Store, id: nat, retryCount: nat, error: string,
                                           clock: nat -> int, ends: nat -> int)
    requires id in s.tasks && s.tasks[id].isActive
    ensures var c := FailingRuns(s, id, retryCount, error, clock, ends);
            && ExtendedBy(s.logs, c.store.logs, c.runs)
            && FailureLogs(c.store.logs, |s.logs|, id, retryCount, ends)
            && ExtendedBy(s.notifications, c.store.notifications, c.runs)
            && FailureNotices(c.store.notifications, |s.notifications|, id)
    decreases if retryCount < JobMaxRetries then JobMaxRetries - retryCount else 0
  {
    var m := FailedRun(s, id, retryCount, error, clock(retryCount), ends(retryCount));
    FailedRunRows(s, id, retryCount, error, clock, ends);
    if retryCount < RetryLimit(s.tasks[id].maxRetries) {
      FailingRunsRows(m, id, retryCount + 1, error, clock, ends);
      var c := FailingRuns(m, id, retryCount + 1, error, clock, ends);
      assert FailingRuns(s, id, retryCount, error, clock, ends) == Chain(c.store, c.runs + 1);
      ExtendedTrans(s.logs, m.logs, c.store.logs, 1, c.runs);
      ExtendedTrans(s.notifications, m.notifications, c.store.notifications, 1, c.runs);
      FailureLogsCons(s.logs, m.logs, c.store.logs, c.runs, id, retryCount, ends);
      FailureNoticesCons(s.notifications, m.notifications, c.store.notifications, c.runs, id);
    }
  }

  /** From the first run, a task that always fails runs once plus once per
      retry it is allowed: `max_retries + 1` times with `max_retries` capped
      at the job's 3, and once when `max_retries` is zero or less. Each log
      carries the time its run's body raised; the task's last execution is
      the start of the last retry. */
  lemma FailingTaskAttempts(s: Store, id: nat, error: string, clock: nat -> int, ends: nat -> int)
    requires id in s.tasks && s.tasks[id].isActive
    ensures var c := FailingRuns(s, id, 0, error, clock, ends);
            var m := s.tasks[id].maxRetries;
            && c.runs == (if m <= 0 then 1 else if m < JobMaxRetries then m + 1 else JobMaxRetries + 1)
            && |c.store.logs| == |s.logs| + c.runs
            && FailureLogs(c.store.logs, |s.logs|, id, 0, ends)
            && id in c.store.tasks
            && c.store.tasks[id].status == s.tasks[id].status
            && c.store.tasks[id].totalExecutions == s.tasks[id].totalExecutions + c.runs
            && c.store.tasks[id].lastExecution == Some(clock(c.runs - 1))
  {
    FailingRunsCount(s, id, 0, error, clock, ends);
    FailingRunsTask(s, id, 0, error, clock, ends);
    FailingRunsRows(s, id, 0, error, clock, ends);
    var c := FailingRuns(s, id, 0, error, clock, ends);
    assert 0 + c.runs - 1 == c.runs - 1;
  }

  // ---------------------------------------------------------------------------
  // recovery_scan
  // ---------------------------------------------------------------------------

  /** A ONE_TIME task whose time has come (a missing time never has) that has
      not run and is still active. */
  predicate Overdue(t: Task, now: int) {
    && t.scheduleType == OneTime
    && t.scheduledTime.Some? && t.scheduledTime.value <= now
    && !t.executedOnce && t.isActive && t.status == Active
  }

  /** An active recurring task whose next execution is unknown or past. */
  predicate Stuck(t: Task, now: int) {
    && (t.scheduleType == Cron || t.scheduleType == Interval)
    && t.isActive && t.status == Active
    && !(t.nextExecution.Some? && t.nextExecution.value > now)
  }

  function OverdueIds(s: Store, now: int): set<nat> {
    set id | id in s.tasks && Overdue(s.tasks[id], now)
  }

  function StuckIds(s: Store, now: int): (r: set<nat>)
    ensures r <= s.tasks.Keys
  {
    set id | id in s.tasks && Stuck(s.tasks[id], now)
  }

  /** In a consistent store no task has a next execution, so every active
      recurring task counts as stuck. */
  lemma StuckUnderValid(s: Store, id: nat, now: int)
    requires Valid(s) && id in s.tasks
    ensures id in StuckIds(s, now) <==>
              && s.tasks[id].scheduleType != OneTime
              && s.tasks[id].isActive && s.tasks[id].status == Active
  {
  }

  /** When the entries are current, rebuilding a task's entry changes nothing. */
  lemma RebuildKeepsEntry(s: Store, id: nat)
    requires TasksKeyed(s) && EntriesCurrent(s) && id in s.tasks
    ensures CreatePeriodicTask(s.periodic, s.tasks[id]) == Ok(s.periodic)
  {
    assert s.tasks[id].id == id;
    assert s.periodic[EntryName(id) := EntryFor(s.tasks[id])] == s.periodic;
  }

  /** How the scan ends: it returns its two counts, or the rebuild of the
      named stuck task raises. */
  datatype ScanOutcome = Returned(recoveredTasks: nat, stuckTasks: nat) | RebuildRaised(taskId: nat)

  /** The ids the scan dispatched, in dispatch order, and how it ended. */
  datatype ScanResult = ScanResult(dispatched: seq<nat>, outcome: ScanOutcome)

  predicate Distinct(xs: seq<nat>) {
    forall i, j :: 0 <= i < j < |xs| ==> xs[i] != xs[j]
  }

  /** `sent` and `todo` split `all` between them, `sent` without repeats. */
  ghost predicate Split(sent: seq<nat>, todo: set<nat>, all: set<nat>) {
    && todo <= all
    && (forall id :: id in sent ==> id in all && id !in todo)
    && (forall id :: id in all ==> id in todo || id in sent)
    && Distinct(sent)
    && |sent| + |todo| == |all|
  }

  lemma SplitMove(sent: seq<nat>, todo: set<nat>, all: set<nat>, id: nat)
    requires Split(sent, todo, all) && id in todo
    ensures Split(sent + [id], todo - {id}, all)
  {
  }

  /** From `from` on, `ns` holds one RECOVERY notice per id of `sent`, in order. */
  ghost predicate RecoveryNotices(ns: seq<Notification>, from: nat, sent: seq<nat>) {
    && |ns| == from + |sent|
    && forall i :: 0 <= i < |sent| ==> Emitted(ns[from + i], Recovery, High, Some(sent[i]), None)
  }

  lemma RecoveryNoticesStep(ns: seq<Notification>, from: nat, sent: seq<nat>, n: Notification, id: nat)
    requires RecoveryNotices(ns, from, sent) && Emitted(n, Recovery, High, Some(id), None)
    ensures RecoveryNotices(ns + [n], from, sent + [id])
  {
    var ns' := ns + [n];
    var sent' := sent + [id];
    forall i | 0 <= i < |sent'|
      ensures Emitted(ns'[from + i], Recovery, High, Some(sent'[i]), None)
    {
      if i < |sent| {
        assert ns'[from + i] == ns[from + i];
      }
    }
  }

  /** The first half of `recovery_scan`: dispatch every overdue task once,
      each with a RECOVERY notice linked to it, in no fixed order. */
  method DispatchOverdue(s: Store, now: int) returns (r: Store, sent: seq<nat>)
    ensures r == s.(notifications := r.notifications, nextNotificationId := r.nextNotificationId)
    ensures Distinct(sent)
    ensures forall id :: id in sent <==> id in OverdueIds(s, now)
    ensures |sent| == |OverdueIds(s, now)|
    ensures ExtendedBy(s.notifications, r.notifications, |sent|)
    ensures forall i :: 0 <= i < |sent| ==>
              Emitted(r.notifications[|s.notifications| + i], Recovery, High, Some(sent[i]), None)
    ensures Valid(s) ==> Valid(r)
  {
    var overdue := OverdueIds(s, now);
    var todo := overdue;
    sent := [];
    r := s;
    while todo != {}
      invariant Split(sent, todo, overdue)
      invariant r == s.(notifications := r.notifications, nextNotificationId := r.nextNotificationId)
      invariant RecoveryNotices(r.notifications, |s.notifications|, sent)
      invariant r.notifications[..|s.notifications|] == s.notifications
      invariant Valid(s) ==> Valid(r)
      decreases |todo|
    {
      var id :| id in todo;
      var title := RecoveryTitle + s.tasks[id].name;
      if Valid(s) {
        NotifyValid(r, title, Recovery, High, Some(id), None, now);
      }
      SplitMove(sent, todo, overdue, id);
      var r' := Notify(r, title, Recovery, High, Some(id), None, now);
      assert r'.notifications == r.notifications + [r'.notifications[|r.notifications|]];
      RecoveryNoticesStep(r.notifications, |s.notifications|, sent, r'.notifications[|r.notifications|], id);
      r := r';
      sent := sent + [id];
      todo := todo - {id};
    }
  }

  /** The entry names of a set of task ids. */
  function EntryNames(ids: set<nat>): set<string> {
    set id | id in ids :: EntryName(id)
  }

  lemma EntryNamesAdd(ids: set<nat>, id: nat)
    ensures EntryNames(ids + {id}) == EntryNames(ids) + {EntryName(id)}
  {
  }

  lemma NotInEntryNames(ids: set<nat>, n: string, id: nat)
    requires n !in EntryNames(ids + {id})
    ensures n !in EntryNames(ids) && n != EntryName(id)
  {
    EntryNamesAdd(ids, id);
  }

  /** `p` is `s`'s periodic table with the entries of the tasks in `done`
      rebuilt and every other entry as it was. */
  ghost predicate RebuiltFor(s: Store, p: Entries, done: set<nat>)
    requires done <= s.tasks.Keys
  {
    && p.Keys == s.periodic.Keys + EntryNames(done)
    && (forall id :: id in done ==> Schedulable(s.tasks[id]) && p[EntryName(id)] == EntryFor(s.tasks[id]))
    && (forall n :: n in s.periodic && n !in EntryNames(done) ==> p[n] == s.periodic[n])
  }

  /** Every entry of `s` outside the entries of `ids` is still in `p`, unchanged. */
  ghost predicate KeptOutside(s: Store, p: Entries, ids: set<nat>) {
    forall n :: n in s.periodic && n !in EntryNames(ids) ==> n in p && p[n] == s.periodic[n]
  }

  lemma RebuildStep(s: Store, p: Entries, done: set<nat>, id: nat)
    requires TasksKeyed(s) && done <= s.tasks.Keys && id in s.tasks && Schedulable(s.tasks[id])
    requires RebuiltFor(s, p, done)
    ensures RebuiltFor(s, CreatePeriodicTask(p, s.tasks[id]).value, done + {id})
  {
    var q := CreatePeriodicTask(p, s.tasks[id]).value;
    EntryNamesAdd(done, id);
    forall x | x in done
      ensures q[EntryName(x)] == EntryFor(s.tasks[x])
    {
      if x != id {
        EntryNameInjective(x, id);
      }
    }
    forall n | n in s.periodic && n !in EntryNames(done + {id})
      ensures q[n] == s.periodic[n]
    {
      NotInEntryNames(done, n, id);
    }
  }

  /** Moving one id from the pending set to the finished set. */
  lemma MoveOne<T>(done: set<T>, left: set<T>, all: set<T>, x: T)
    requires left <= all && done == all - left && x in left
    ensures left - {x} <= all && done + {x} == all - (left - {x})
  {
  }

  /** The loop state of the rebuild: the entries of `done` are rebuilt, or
      the rebuild of `raised` has raised, and nothing outside `stuck` is
      touched. */
  ghost predicate Rebuilding(s: Store, stuck: set<nat>, done: set<nat>, entries: Entries,
                             raised: Option<nat>) {
    && stuck <= s.tasks.Keys && done <= stuck
    && KeptOutside(s, entries, stuck)
    && (raised.None? ==> RebuiltFor(s, entries, done))
    && (raised.Some? ==>
          && raised.value in stuck && !Schedulable(s.tasks[raised.value])
          && EntryName(raised.value) !in entries)
    && (EntriesCurrent(s) ==> entries == s.periodic && raised.None?)
  }

  lemma RebuildOk(s: Store, stuck: set<nat>, done: set<nat>, entries: Entries, id: nat)
    requires TasksKeyed(s) && Rebuilding(s, stuck, done, entries, None)
    requires id in stuck && Schedulable(s.tasks[id])
    ensures Rebuilding(s, stuck, done + {id}, CreatePeriodicTask(entries, s.tasks[id]).value, None)
  {
    var q := CreatePeriodicTask(entries, s.tasks[id]).value;
    assert EntryName(id) in EntryNames(stuck);
    if EntriesCurrent(s) {
      RebuildKeepsEntry(s, id);
    }
    RebuildStep(s, entries, done, id);
    assert KeptOutside(s, q, stuck);
  }

  lemma RebuildRaise(s: Store, stuck: set<nat>, done: set<nat>, entries: Entries, id: nat)
    requires TasksKeyed(s) && Rebuilding(s, stuck, done, entries, None)
    requires id in stuck && !Schedulable(s.tasks[id])
    ensures Rebuilding(s, stuck, done, CreatePeriodicTask(entries, s.tasks[id]).error, Some(id))
  {
    assert s.tasks[id].id == id;
    assert EntryName(id) in EntryNames(stuck);
    assert !EntriesCurrent(s) by {
      assert id in s.tasks;
    }
  }

  lemma RebuildStart(s: Store, stuck: set<nat>)
    requires stuck <= s.tasks.Keys
    ensures Rebuilding(s, stuck, {}, s.periodic, None)
  {
    assert EntryNames({}) == {};
  }

  /** Where the rebuild loop stops: with everything rebuilt, or at the task
      whose rebuild raised. */
  lemma RebuildEnds(s: Store, stuck: set<nat>, done: set<nat>, entries: Entries,
                    raised: Option<nat>)
    requires Rebuilding(s, stuck, done, entries, raised)
    requires raised.None? ==> done == stuck
    ensures raised.None? <==> forall id :: id in stuck ==> Schedulable(s.tasks[id])
    ensures raised.None? ==> RebuiltFor(s, entries, stuck)
  {
  }

  /** The second half of `recovery_scan`: rebuild the periodic entry of every
      stuck task, in no fixed order. A task left without its interval makes
      the rebuild raise once its entry is deleted; the scan stops there and
      `raised` names the task. */
  method RebuildStuck(s: Store, now: int) returns (r: Store, raised: Option<nat>)
    requires TasksKeyed(s)
    ensures r == s.(periodic := r.periodic)
    ensures raised.None? <==> forall id :: id in StuckIds(s, now) ==> Schedulable(s.tasks[id])
    ensures raised.None? ==> RebuiltFor(s, r.periodic, StuckIds(s, now))
    ensures raised.Some? ==>
              && raised.value in StuckIds(s, now) && !Schedulable(s.tasks[raised.value])
              && EntryName(raised.value) !in r.periodic
    ensures KeptOutside(s, r.periodic, StuckIds(s, now))
    ensures EntriesCurrent(s) ==> r == s && raised.None?
  {
    var stuck := StuckIds(s, now);
    var left := stuck;
    ghost var done: set<nat> := {};
    var entries := s.periodic;
    raised := None;
    RebuildStart(s, stuck);
    while left != {} && raised.None?
      invariant left <= stuck && done == stuck - left
      invariant Rebuilding(s, stuck, done, entries, raised)
      decreases |left|, if raised.None? then 1 else 0
    {
      var id :| id in left;
      var rebuilt := CreatePeriodicTask(entries, s.tasks[id]);
      if rebuilt.Ok? {
        RebuildOk(s, stuck, done, entries, id);
        MoveOne(done, left, stuck, id);
        entries := rebuilt.value;
        done := done + {id};
        left := left - {id};
      } else {
        RebuildRaise(s, stuck, done, entries, id);
        entries := rebuilt.error;
        raised := Some(id);
      }
    }
    RebuildEnds(s, stuck, done, entries, raised);
    r := s.(periodic := entries);
  }

  /** `recovery_scan`: dispatch the overdue tasks, then rebuild the entries
      of the stuck ones. The tasks and logs are not touched. */
  method RecoveryScan(s: Store, now: int) returns (r: Store, scan: ScanResult)
    requires TasksKeyed(s)
    ensures r.tasks == s.tasks && r.logs == s.logs
    ensures r.nextTaskId == s.nextTaskId && r.nextLogId == s.nextLogId
    ensures Distinct(scan.dispatched)
    ensures forall id :: id in scan.dispatched <==> id in OverdueIds(s, now)
    ensures |scan.dispatched| == |OverdueIds(s, now)|
    ensures ExtendedBy(s.notifications, r.notifications, |scan.dispatched|)
    ensures forall i :: 0 <= i < |scan.dispatched| ==>
              Emitted(r.notifications[|s.notifications| + i], Recovery, High,
                      Some(scan.dispatched[i]), None)
    ensures scan.outcome.Returned? <==>
              forall id :: id in StuckIds(s, now) ==> Schedulable(s.tasks[id])
    ensures scan.outcome.Returned? ==>
              && scan.outcome == Returned(|scan.dispatched|, |StuckIds(s, now)|)
              && r.periodic.Keys == s.periodic.Keys + EntryNames(StuckIds(s, now))
              && forall id :: id in StuckIds(s, now) ==> r.periodic[EntryName(id)] == EntryFor(s.tasks[id])
    ensures scan.outcome.RebuildRaised? ==>
              && scan.outcome.taskId in StuckIds(s, now)
              && !Schedulable(s.tasks[scan.outcome.taskId])
              && EntryName(scan.outcome.taskId) !in r.periodic
    ensures forall n :: n in s.periodic && n !in EntryNames(StuckIds(s, now)) ==>
              n in r.periodic && r.periodic[n] == s.periodic[n]
    ensures Valid(s) ==> Valid(r) && r.periodic == s.periodic && scan.outcome.Returned?
  {
    var afterDispatch, sent := DispatchOverdue(s, now);
    assert StuckIds(afterDispatch, now) == StuckIds(s, now);
    var raised;
    r, raised := RebuildStuck(afterDispatch, now);
    if raised.Some? {
      scan := ScanResult(sent, RebuildRaised(raised.value));
    } else {
      scan := ScanResult(sent, Returned(|sent|, |StuckIds(s, now)|));
    }
  }
}
