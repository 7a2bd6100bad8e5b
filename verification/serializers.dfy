/** ScheduledTaskSerializer: the checks a request payload goes through, the
    task it creates, the guard and field copy of an update, and the
    `next_run_time` it reports.

    A payload holds only the writable fields. A field is `None` when the
    request did not send it; nullable fields (`scheduled_time`,
    `interval_seconds`, `created_by`) are `Some(None)` when sent as null.
    `schedule_type` and `status` are the model's own enumerations, so a
    value outside a choice list, which DRF's field-level choice check
    refuses with 400 before `validate`, cannot be expressed.
 */
module Serializers {
  import opened Base
  import opened Models
  import opened Beat
  import opened Db

  datatype CronPayload = CronPayload(
    minute: Option<string>,
    hour: Option<string>,
    dayOfWeek: Option<string>,
    dayOfMonth: Option<string>,
    monthOfYear: Option<string>)

  datatype Payload = Payload(
    name: Option<string>,
    description: Option<string>,
    scheduleType: Option<ScheduleType>,
    status: Option<Status>,
    scheduledTime: Option<Option<int>>,
    cron: CronPayload,
    intervalSeconds: Option<Option<int>>,
    createdBy: Option<Option<string>>,
    maxRetries: Option<int>,
    retryDelay: Option<int>)

  const NoCron: CronPayload := CronPayload(None, None, None, None, None)
  const EmptyPayload: Payload := Payload(None, None, None, None, None, NoCron, None, None, None, None)

  /** The errors a request can be answered with. */
  datatype ValidationError =
    | NameRequired
    | ScheduledTimeMissing
    | ScheduledTimeNotFuture
    | IntervalTooShort
    | FieldTooLong(field: string)
    | NotModifiable
  {
    /** The key the error is reported under. */
    function Key(): string {
      match this
      case NameRequired => "name"
      case ScheduledTimeMissing => "scheduled_time"
      case ScheduledTimeNotFuture => "scheduled_time"
      case IntervalTooShort => "interval_seconds"
      case FieldTooLong(field) => field
      case NotModifiable => "detail"
    }
  }

  /** `Invalid` is a 400 with field errors, `NotFound` a 404, the three
      `Cannot…` answers the 400s of the task actions, and `ServerError` an
      exception escaping the handler. */
  datatype ApiError =
    | Invalid(reason: ValidationError)
    | NotFound
    | CannotPause
    | CannotResume
    | CannotDelete
    | ServerError

  /** The state after a request together with what the request answered. */
  datatype Reply<+T> = Reply(store: Store, result: Result<T, ApiError>)

  /** `data.get(field)` for a nullable field: absent and null read the same. */
  function Sent<T>(field: Option<Option<T>>): Option<T> {
    if field.Some? then field.value else None
  }

  /** Python truthiness of a sent string: absent or empty counts as missing. */
  predicate Blank(field: Option<string>) {
    field.None? || field.value == ""
  }

  /** The relation between a sent cron field and the one `validate` hands on:
      a missing or empty field becomes `*`, anything else is kept. */
  predicate FilledFrom(given: Option<string>, out: Option<string>) {
    && out.Some?
    && (Blank(given) ==> out.value == AnyValue)
    && (!Blank(given) ==> out == given)
  }

  predicate CronFilledFrom(given: CronPayload, out: CronPayload) {
    && FilledFrom(given.minute, out.minute)
    && FilledFrom(given.hour, out.hour)
    && FilledFrom(given.dayOfWeek, out.dayOfWeek)
    && FilledFrom(given.dayOfMonth, out.dayOfMonth)
    && FilledFrom(given.monthOfYear, out.monthOfYear)
  }

  function FillCronField(field: Option<string>): Option<string> {
    if Blank(field) then Some(AnyValue) else field
  }

  /** `ScheduledTaskSerializer.validate`. */
  function Validate(data: Payload, now: int): (r: Result<Payload, ValidationError>)
    ensures data.scheduleType == Some(OneTime) ==>
              (r.Ok? <==> Sent(data.scheduledTime).Some? && Sent(data.scheduledTime).value > now)
    ensures data.scheduleType == Some(OneTime) && r.Err? ==>
              r.error.Key() == "scheduled_time"
              && (r.error == ScheduledTimeMissing <==> Sent(data.scheduledTime).None?)
    ensures data.scheduleType == Some(Interval) ==>
              (r.Ok? <==> var v := Sent(data.intervalSeconds);
                          v.Some? && v.value != 0 && v.value >= MinIntervalSeconds)
    ensures data.scheduleType == Some(Interval) && r.Err? ==> r.error == IntervalTooShort
    ensures data.scheduleType !in {Some(OneTime), Some(Interval)} ==> r.Ok?
    ensures r.Ok? && data.scheduleType != Some(Cron) ==> r.value == data
    ensures r.Ok? && data.scheduleType == Some(Cron) ==>
              r.value == data.(cron := r.value.cron) && CronFilledFrom(data.cron, r.value.cron)
  {
    match data.scheduleType
    case Some(OneTime) =>
      var t := Sent(data.scheduledTime);
      if t.None? then Err(ScheduledTimeMissing)
      else if t.value <= now then Err(ScheduledTimeNotFuture)
      else Ok(data)
    case Some(Cron) =>
      var c := data.cron;
      Ok(data.(cron := CronPayload(FillCronField(c.minute), FillCronField(c.hour),
                                   FillCronField(c.dayOfWeek), FillCronField(c.dayOfMonth),
                                   FillCronField(c.monthOfYear))))
    case Some(Interval) =>
      var v := Sent(data.intervalSeconds);
      if v.None? || v.value == 0 || v.value < MinIntervalSeconds then Err(IntervalTooShort)
      else Ok(data)
    case None => Ok(data)
  }

  /** Validating what `validate` returned changes nothing more. */
  lemma ValidateIdempotent(data: Payload, now: int)
    requires Validate(data, now).Ok?
    ensures Validate(Validate(data, now).value, now) == Validate(data, now)
  {
  }

  /** A payload that leaves `schedule_type` out passes `validate` untouched,
      even though the task it creates is ONE_TIME by default. */
  lemma ValidateSkipsAbsentType(data: Payload, now: int)
    requires data.scheduleType.None?
    ensures Validate(data, now) == Ok(data)
  {
  }

  /** `get_next_run_time`. */
  function NextRunTime(t: Task): Option<int> {
    match t.scheduleType
    case OneTime => t.scheduledTime
    case Cron => t.nextExecution
    case Interval => t.nextExecution
  }

  /** Since nothing in the app writes `next_execution`, CRON and INTERVAL
      tasks of a consistent store report no next run time; ONE_TIME tasks
      report their scheduled time, which a consistent store always has. */
  lemma NextRunTimeInStore(s: Store, id: nat)
    requires Valid(s) && id in s.tasks
    ensures s.tasks[id].scheduleType == OneTime ==> NextRunTime(s.tasks[id]) == s.tasks[id].scheduledTime
    ensures s.tasks[id].scheduleType == OneTime ==> NextRunTime(s.tasks[id]).Some?
    ensures s.tasks[id].scheduleType != OneTime ==> NextRunTime(s.tasks[id]).None?
  {
  }

  /** How many logs `recent_logs` shows. */
  const RecentLogsShown: nat := 5

  /** The first `limit` of a task's logs in the `-executed_at` ordering the
      model declares, taken here as newest-inserted first. */
  function RecentLogs(logs: seq<ExecutionLog>, id: nat, limit: nat): (r: seq<ExecutionLog>)
    ensures |r| == if |LogsOf(logs, id)| < limit then |LogsOf(logs, id)| else limit
    ensures forall i :: 0 <= i < |r| ==> r[i] == LogsOf(logs, id)[|LogsOf(logs, id)| - 1 - i]
    ensures forall l :: l in r ==> l in logs && l.taskId == id
  {
    var newestFirst := Reverse(LogsOf(logs, id));
    if |newestFirst| <= limit then newestFirst else newestFirst[..limit]
  }

  /** In a consistent store the logs shown run from the newest id down. */
  lemma RecentLogsNewestFirst(s: Store, id: nat, limit: nat)
    requires Valid(s)
    ensures forall i, j :: 0 <= i < j < |RecentLogs(s.logs, id, limit)| ==>
              RecentLogs(s.logs, id, limit)[i].id > RecentLogs(s.logs, id, limit)[j].id
  {
    SelectKeepsIncreasing(s.logs, id, true);
  }

  /** `created_by`: the authenticated user's name wins over the sent value. */
  function CreatedBy(data: Payload, user: Option<string>): Option<string> {
    if user.Some? then user else Sent(data.createdBy)
  }

  /** The row `ScheduledTask.objects.create(**validated_data)` inserts: sent
      fields as given, the model's defaults for the rest. */
  function NewTask(id: nat, data: Payload, now: int, user: Option<string>): Task
    requires data.name.Some?
  {
    var c := data.cron;
    Task(id, data.name.value, data.description.GetOr(""),
         data.scheduleType.GetOr(DefaultScheduleType), data.status.GetOr(DefaultStatus),
         Sent(data.scheduledTime),
         CronFields(c.minute.GetOr(AnyValue), c.hour.GetOr(AnyValue), c.dayOfWeek.GetOr(AnyValue),
                    c.dayOfMonth.GetOr(AnyValue), c.monthOfYear.GetOr(AnyValue)),
         Sent(data.intervalSeconds),
         true, false, 0, None, None, now, CreatedBy(data, user),
         data.maxRetries.GetOr(DefaultMaxRetries), data.retryDelay.GetOr(DefaultRetryDelay))
  }

  /** A sent field takes the sent value; an absent one has `fallback`: the
      old value on update, the model's default on create. */
  predicate Takes<T(==)>(given: Option<T>, fallback: T, value: T) {
    if given.Some? then value == given.value else value == fallback
  }

  /** Whether the create call has the schedule value its schedule row needs:
      a time for a ONE_TIME task (the type when none is sent), an interval
      for an INTERVAL task. */
  predicate ScheduleSent(data: Payload) {
    var scheduleType := data.scheduleType.GetOr(DefaultScheduleType);
    && (scheduleType == OneTime ==> Sent(data.scheduledTime).Some?)
    && (scheduleType == Interval ==> Sent(data.intervalSeconds).Some?)
  }

  /** `ScheduledTaskSerializer.create`. The name is required at field level,
      before this is reached. Answers the new task's id. When the schedule
      row cannot be stored the atomic block rolls back and the error escapes
      as a server error. */
  function Create(s: Store, data: Payload, now: int, user: Option<string>): (r: Reply<nat>)
    requires data.name.Some?
    ensures r.result.Ok? <==> ScheduleSent(data)
    ensures r.result.Err? ==> r == Reply(s, Err(ServerError))
    ensures r.result.Ok? ==>
              var id := r.result.value;
              && id == s.nextTaskId && r.store.nextTaskId == id + 1
              && r.store.tasks.Keys == s.tasks.Keys + {id}
              && (forall k :: k in s.tasks && k != id ==> r.store.tasks[k] == s.tasks[k])
              && r.store.logs == s.logs
    ensures r.result.Ok? ==>
              var t := r.store.tasks[r.result.value];
              && t.id == r.result.value && t.name == data.name.value && t.createdAt == now
              && t.isActive && !t.executedOnce && t.totalExecutions == 0
              && t.lastExecution.None? && t.nextExecution.None?
              && Takes(data.description, "", t.description)
              && Takes(data.scheduleType, DefaultScheduleType, t.scheduleType)
              && Takes(data.status, DefaultStatus, t.status)
              && t.scheduledTime == Sent(data.scheduledTime)
              && t.intervalSeconds == Sent(data.intervalSeconds)
              && Takes(data.maxRetries, DefaultMaxRetries, t.maxRetries)
              && Takes(data.retryDelay, DefaultRetryDelay, t.retryDelay)
              && Takes(data.cron.minute, AnyValue, t.cron.minute)
              && Takes(data.cron.hour, AnyValue, t.cron.hour)
              && Takes(data.cron.dayOfWeek, AnyValue, t.cron.dayOfWeek)
              && Takes(data.cron.dayOfMonth, AnyValue, t.cron.dayOfMonth)
              && Takes(data.cron.monthOfYear, AnyValue, t.cron.monthOfYear)
              && t.createdBy == (if user.Some? then user else Sent(data.createdBy))
    ensures r.result.Ok? ==>
              r.store.periodic == CreatePeriodicTask(s.periodic, r.store.tasks[r.result.value]).value
    ensures r.result.Ok? ==>
              && |r.store.notifications| == |s.notifications| + 1
              && r.store.notifications[..|s.notifications|] == s.notifications
              && Emitted(r.store.notifications[|s.notifications|], System, Low, Some(r.result.value), None)
  {
    var id := s.nextTaskId;
    var t := NewTask(id, data, now, user);
    match CreatePeriodicTask(s.periodic, t)
    case Err(_) => Reply(s, Err(ServerError))
    case Ok(periodic) =>
      var s1 := s.(tasks := s.tasks[id := t], periodic := periodic, nextTaskId := id + 1);
      Reply(Notify(s1, "Task Created: " + t.name, System, Low, Some(id), None, now), Ok(id))
  }

  lemma {:induction false} CreateValid(s: Store, data: Payload, now: int, user: Option<string>)
    requires Valid(s) && data.name.Some?
    ensures Valid(Create(s, data, now, user).store)
  {
    var id := s.nextTaskId;
    var t := NewTask(id, data, now, user);
    if Schedulable(t) {
      var s1 := s.(tasks := s.tasks[id := t], periodic := CreatePeriodicTask(s.periodic, t).value,
                   nextTaskId := id + 1);
      InsertTaskValid(s, t);
      NotifyValid(s1, "Task Created: " + t.name, System, Low, Some(id), None, now);
    }
  }

  /** The `setattr` loop of `update`: copies the sent fields onto the task. */
  function ApplyPayload(t: Task, data: Payload): (r: Task)
    ensures r.id == t.id && r.isActive == t.isActive && r.executedOnce == t.executedOnce
    ensures r.totalExecutions == t.totalExecutions && r.lastExecution == t.lastExecution
    ensures r.nextExecution == t.nextExecution && r.createdAt == t.createdAt
    ensures Takes(data.name, t.name, r.name) && Takes(data.description, t.description, r.description)
    ensures Takes(data.scheduleType, t.scheduleType, r.scheduleType)
    ensures Takes(data.status, t.status, r.status)
    ensures Takes(data.scheduledTime, t.scheduledTime, r.scheduledTime)
    ensures Takes(data.intervalSeconds, t.intervalSeconds, r.intervalSeconds)
    ensures Takes(data.createdBy, t.createdBy, r.createdBy)
    ensures Takes(data.maxRetries, t.maxRetries, r.maxRetries)
    ensures Takes(data.retryDelay, t.retryDelay, r.retryDelay)
    ensures Takes(data.cron.minute, t.cron.minute, r.cron.minute)
    ensures Takes(data.cron.hour, t.cron.hour, r.cron.hour)
    ensures Takes(data.cron.dayOfWeek, t.cron.dayOfWeek, r.cron.dayOfWeek)
    ensures Takes(data.cron.dayOfMonth, t.cron.dayOfMonth, r.cron.dayOfMonth)
    ensures Takes(data.cron.monthOfYear, t.cron.monthOfYear, r.cron.monthOfYear)
  {
    var c := data.cron;
    t.(name := data.name.GetOr(t.name),
       description := data.description.GetOr(t.description),
       scheduleType := data.scheduleType.GetOr(t.scheduleType),
       status := data.status.GetOr(t.status),
       scheduledTime := data.scheduledTime.GetOr(t.scheduledTime),
       cron := CronFields(c.minute.GetOr(t.cron.minute), c.hour.GetOr(t.cron.hour),
                          c.dayOfWeek.GetOr(t.cron.dayOfWeek), c.dayOfMonth.GetOr(t.cron.dayOfMonth),
                          c.monthOfYear.GetOr(t.cron.monthOfYear)),
       intervalSeconds := data.intervalSeconds.GetOr(t.intervalSeconds),
       createdBy := data.createdBy.GetOr(t.createdBy),
       maxRetries := data.maxRetries.GetOr(t.maxRetries),
       retryDelay := data.retryDelay.GetOr(t.retryDelay))
  }

  lemma ApplyEmptyPayload(t: Task)
    ensures ApplyPayload(t, EmptyPayload) == t
  {
  }

  lemma ApplyPayloadIdempotent(t: Task, data: Payload)
    ensures ApplyPayload(ApplyPayload(t, data), data) == ApplyPayload(t, data)
  {
  }

  /** `ScheduledTaskSerializer.update` on a stored task: refused unless
      `can_be_modified` holds (a failing comparison escapes as a server
      error); otherwise the sent fields are copied and the periodic entry is
      rebuilt, which fails, rolling the update back, when the task is left
      without the time or interval its schedule row needs. A refused update
      leaves the store as it was. */
  function Update(s: Store, id: nat, data: Payload, now: int): (r: Reply<Task>)
    requires id in s.tasks
    ensures r.result.Ok? <==>
              CanBeModified(s.tasks[id], now) == Some(true) && Schedulable(ApplyPayload(s.tasks[id], data))
    ensures r.result.Err? ==> r.store == s
    ensures r.result.Err? && CanBeModified(s.tasks[id], now) == Some(false) ==>
              r.result.error == Invalid(NotModifiable)
    ensures r.result.Err? && CanBeModified(s.tasks[id], now) != Some(false) ==>
              r.result.error == ServerError
    ensures r.result.Ok? ==>
              var t := r.result.value;
              && t == ApplyPayload(s.tasks[id], data)
              && r.store == s.(tasks := s.tasks[id := t],
                               periodic := CreatePeriodicTask(s.periodic, t).value)
  {
    var t := s.tasks[id];
    match CanBeModified(t, now)
    case None => Reply(s, Err(ServerError))
    case Some(false) => Reply(s, Err(Invalid(NotModifiable)))
    case Some(true) =>
      var t' := ApplyPayload(t, data);
      match CreatePeriodicTask(s.periodic, t')
      case Err(_) => Reply(s, Err(ServerError))
      case Ok(periodic) => Reply(s.(tasks := s.tasks[id := t'], periodic := periodic), Ok(t'))
  }

  lemma UpdateValid(s: Store, id: nat, data: Payload, now: int)
    requires Valid(s) && id in s.tasks
    ensures Valid(Update(s, id, data, now).store)
  {
    var r := Update(s, id, data, now);
    if r.result.Ok? {
      ReplaceTaskValid(s, r.result.value);
    }
  }
}
