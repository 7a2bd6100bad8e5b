/** The three record kinds of the scheduler app: ScheduledTask, ExecutionLog
    and Notification, with their enumerations, defaults and the predicates
    that decide which tasks may still change.

    Timestamps are integers (seconds); `now` is always passed in.
 */
module Models {
  import opened Base

  datatype ScheduleType = OneTime | Cron | Interval

  /** ScheduledTask.status: ACTIVE, PAUSED, COMPLETED, FAILED, PENDING. */
  datatype Status = Active | Paused | Completed | Failed | Pending

  /** The five crontab fields, stored as the strings the user typed. */
  datatype CronFields = CronFields(
    minute: string,
    hour: string,
    dayOfWeek: string,
    dayOfMonth: string,
    monthOfYear: string)

  /** The value every cron field defaults to. */
  const AnyValue: string := "*"
  const DefaultCron: CronFields := CronFields(AnyValue, AnyValue, AnyValue, AnyValue, AnyValue)

  const DefaultScheduleType: ScheduleType := OneTime
  const DefaultStatus: Status := Active
  const DefaultMaxRetries: int := 3
  /** Seconds between retries. */
  const DefaultRetryDelay: int := 60
  /** The smallest interval an INTERVAL task may have, in seconds. */
  const MinIntervalSeconds: int := 60

  datatype Task = Task(
    id: nat,
    name: string,
    description: string,
    scheduleType: ScheduleType,
    status: Status,
    scheduledTime: Option<int>,
    cron: CronFields,
    intervalSeconds: Option<int>,
    isActive: bool,
    executedOnce: bool,
    totalExecutions: nat,
    lastExecution: Option<int>,
    nextExecution: Option<int>,
    createdAt: int,
    createdBy: Option<string>,
    maxRetries: int,
    retryDelay: int)

  /** ExecutionLog.status: SUCCESS, FAILED, RETRY, SKIPPED, TIMEOUT. */
  datatype LogStatus = Success | Failure | Retry | Skipped | Timeout

  /** The structured `error_details` of a failed run: the error text (also the
      log's message) and the retry count; the traceback is not modelled. */
  datatype ErrorDetails = ErrorDetails(error: string, retryCount: nat)

  datatype ExecutionLog = ExecutionLog(
    id: nat,
    taskId: nat,
    executedAt: int,
    status: LogStatus,
    errorDetails: Option<ErrorDetails>,
    retryCount: nat)

  datatype Priority = Low | Medium | High | Critical

  datatype Category = TaskExecuted | TaskFailed | TaskCompleted | System | Reminder | Recovery

  datatype Notification = Notification(
    id: nat,
    title: string,
    category: Category,
    priority: Priority,
    taskId: Option<nat>,
    logId: Option<nat>,
    isRead: bool,
    isArchived: bool,
    createdAt: int)

  /** `can_be_modified`. A ONE_TIME task compares `now` with its scheduled
      time; when that time is missing the comparison raises, which is `None`
      here. Every other task may change while ACTIVE or PAUSED. */
  function CanBeModified(t: Task, now: int): Option<bool> {
    if t.scheduleType == OneTime then
      if t.executedOnce then Some(false)
      else if t.scheduledTime.None? then None
      else Some(now < t.scheduledTime.value)
    else
      Some(t.status == Active || t.status == Paused)
  }

  /** `can_be_deleted`. */
  predicate CanBeDeleted(t: Task) {
    !(t.status == Completed || t.status == Failed)
    || (t.scheduleType == OneTime && !t.executedOnce)
  }

  /** `Notification.mark_as_read`. */
  function MarkAsRead(n: Notification): (r: Notification)
    ensures r.isRead
  {
    n.(isRead := true)
  }

  lemma OneTimeModifiable(t: Task, now: int)
    requires t.scheduleType == OneTime
    ensures CanBeModified(t, now) == Some(true)
            <==> !t.executedOnce && t.scheduledTime.Some? && now < t.scheduledTime.value
    ensures CanBeModified(t, now).None? <==> !t.executedOnce && t.scheduledTime.None?
  {
  }

  /** For a ONE_TIME task the status plays no part in the decision. */
  lemma OneTimeModifiableIgnoresStatus(t: Task, now: int, st: Status)
    requires t.scheduleType == OneTime
    ensures CanBeModified(t.(status := st), now) == CanBeModified(t, now)
  {
  }

  lemma RecurringModifiable(t: Task, now: int)
    requires t.scheduleType != OneTime
    ensures CanBeModified(t, now) == Some(true) <==> t.status in {Active, Paused}
    ensures CanBeModified(t, now).Some?
  {
  }

  lemma NonTerminalDeletable(t: Task)
    requires t.status !in {Completed, Failed}
    ensures CanBeDeleted(t)
  {
  }

  /** A task in a terminal status is deletable only when it is a ONE_TIME task
      that never ran; so a CRON or INTERVAL task in a terminal status never is. */
  lemma TerminalDeletable(t: Task)
    requires t.status in {Completed, Failed}
    ensures CanBeDeleted(t) <==> t.scheduleType == OneTime && !t.executedOnce
    ensures t.scheduleType != OneTime ==> !CanBeDeleted(t)
  {
  }

  lemma MarkAsReadEffect(n: Notification)
    ensures MarkAsRead(n).isRead
    ensures MarkAsRead(n).(isRead := n.isRead) == n
    ensures MarkAsRead(MarkAsRead(n)) == MarkAsRead(n)
  {
  }
}
