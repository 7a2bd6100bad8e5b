/** The command handlers of ScheduledTaskViewSet and NotificationViewSet.

    Each handler takes the store and returns a `Reply`: the new store and
    the answer. A refused request answers with an `ApiError` and leaves the
    store as it was. `now` is the time the request is handled.
 */
module Views {
  import opened Base
  import opened Models
  import opened Beat
  import opened Db
  import opened Serializers
  import Tasks

  // ---------------------------------------------------------------------------
  // ScheduledTaskViewSet: create and update through the serializer
  // ---------------------------------------------------------------------------

  /** `name` is a CharField of at most 255 characters that may not be blank. */
  const NameMaxLength: nat := 255
  /** The cron fields hold at most 20 characters, `created_by` at most 255. */
  const CronFieldMaxLength: nat := 20
  const CreatedByMaxLength: nat := 255

  predicate Longer(field: Option<string>, limit: nat) {
    field.Some? && |field.value| > limit
  }

  /** Whether a sent `interval_seconds` is below the model's minimum. */
  predicate ShortInterval(data: Payload) {
    Sent(data.intervalSeconds).Some? && Sent(data.intervalSeconds).value < MinIntervalSeconds
  }

  /** Whether `key` names a cron field of `c` that is longer than allowed. */
  predicate CronFieldTooLong(c: CronPayload, key: string) {
    || (key == "cron_minute" && Longer(c.minute, CronFieldMaxLength))
    || (key == "cron_hour" && Longer(c.hour, CronFieldMaxLength))
    || (key == "cron_day_of_week" && Longer(c.dayOfWeek, CronFieldMaxLength))
    || (key == "cron_day_of_month" && Longer(c.dayOfMonth, CronFieldMaxLength))
    || (key == "cron_month_of_year" && Longer(c.monthOfYear, CronFieldMaxLength))
  }

  /** The field-level rules, each on its own: a name (which a partial update
      may leave out) that is neither blank nor longer than 255, a sent
      interval of at least 60 seconds, and the maximum lengths. */
  predicate FieldsAccepted(data: Payload, partial: bool) {
    && (data.name.Some? || partial)
    && data.name != Some("")
    && !Longer(data.name, NameMaxLength)
    && !ShortInterval(data)
    && !Longer(data.cron.minute, CronFieldMaxLength)
    && !Longer(data.cron.hour, CronFieldMaxLength)
    && !Longer(data.cron.dayOfWeek, CronFieldMaxLength)
    && !Longer(data.cron.dayOfMonth, CronFieldMaxLength)
    && !Longer(data.cron.monthOfYear, CronFieldMaxLength)
    && !Longer(Sent(data.createdBy), CreatedByMaxLength)
  }

  /** Whether `e` reports a field of `data` that breaks its rule. */
  predicate FieldFails(data: Payload, partial: bool, e: ValidationError) {
    match e
    case NameRequired => (data.name.None? && !partial) || data.name == Some("")
    case IntervalTooShort => ShortInterval(data)
    case FieldTooLong(key) =>
      || (key == "name" && Longer(data.name, NameMaxLength))
      || CronFieldTooLong(data.cron, key)
      || (key == "created_by" && Longer(Sent(data.createdBy), CreatedByMaxLength))
    case _ => false
  }

  /** The first of the five cron fields longer than allowed, by its key. */
  function LongCronField(c: CronPayload): Option<string> {
    if Longer(c.minute, CronFieldMaxLength) then Some("cron_minute")
    else if Longer(c.hour, CronFieldMaxLength) then Some("cron_hour")
    else if Longer(c.dayOfWeek, CronFieldMaxLength) then Some("cron_day_of_week")
    else if Longer(c.dayOfMonth, CronFieldMaxLength) then Some("cron_day_of_month")
    else if Longer(c.monthOfYear, CronFieldMaxLength) then Some("cron_month_of_year")
    else None
  }

  /** The field-level checks that run before `validate`, whatever the
      schedule type. Only the first failing field is reported. */
  function CheckFields(data: Payload, partial: bool): (r: Option<ValidationError>)
    ensures r.None? <==> FieldsAccepted(data, partial)
    ensures r.Some? ==> FieldFails(data, partial, r.value)
  {
    if data.name.None? && !partial then Some(NameRequired)
    else if data.name == Some("") then Some(NameRequired)
    else if Longer(data.name, NameMaxLength) then Some(FieldTooLong("name"))
    else if ShortInterval(data) then Some(IntervalTooShort)
    else if LongCronField(data.cron).Some? then Some(FieldTooLong(LongCronField(data.cron).value))
    else if Longer(Sent(data.createdBy), CreatedByMaxLength) then Some(FieldTooLong("created_by"))
    else None
  }

  /** POST on the task list: field checks, `validate`, then `create`.
      Answers the new task's id. */
  function CreateTask(s: Store, data: Payload, now: int, user: Option<string>): (r: Reply<nat>)
    ensures r.result.Err? ==> r.store == s
    ensures CheckFields(data, false).Some? || Validate(data, now).Err? ==>
              r.result.Err? && r.result.error.Invalid?
    ensures CheckFields(data, false).None? && Validate(data, now).Ok? ==>
              data.name.Some? && r == Create(s, Validate(data, now).value, now, user)
    ensures r.result.Ok? <==>
              CheckFields(data, false).None? && Validate(data, now).Ok?
              && ScheduleSent(Validate(data, now).value)
    ensures data.name.None? ==> r.result == Err(Invalid(NameRequired))
    ensures ShortInterval(data) ==> r.result.Err?
    ensures r.result.Ok? ==> r.result.value == s.nextTaskId
  {
    match CheckFields(data, false)
    case Some(e) => Reply(s, Err(Invalid(e)))
    case None =>
      match Validate(data, now)
      case Err(e) => Reply(s, Err(Invalid(e)))
      case Ok(valid) => Create(s, valid, now, user)
  }

  lemma CreateTaskValid(s: Store, data: Payload, now: int, user: Option<string>)
    requires Valid(s)
    ensures Valid(CreateTask(s, data, now, user).store)
  {
    if CheckFields(data, false).None? && Validate(data, now).Ok? {
      CreateValid(s, Validate(data, now).value, now, user);
    }
  }

  /** A POST that names no schedule type gets a ONE_TIME task, which
      `validate` does not check; without a time its schedule row fails and
      the request answers a server error. */
  lemma UntypedCreateWithoutTime(s: Store, data: Payload, now: int, user: Option<string>)
    requires CheckFields(data, false).None?
    requires data.scheduleType.None? && Sent(data.scheduledTime).None?
    ensures CreateTask(s, data, now, user) == Reply(s, Err(ServerError))
  {
    ValidateSkipsAbsentType(data, now);
  }

  /** PUT or PATCH on a task: 404 for an unknown id, then the field checks and
      `validate`, then `update`. */
  function UpdateTask(s: Store, id: nat, data: Payload, now: int, partial: bool): (r: Reply<Task>)
    ensures id !in s.tasks ==> r == Reply(s, Err(NotFound))
    ensures r.result.Err? ==> r.store == s
    ensures id in s.tasks && (CheckFields(data, partial).Some? || Validate(data, now).Err?) ==>
              r.result.Err? && r.result.error.Invalid?
    ensures id in s.tasks && CheckFields(data, partial).None? && Validate(data, now).Ok? ==>
              r == Update(s, id, Validate(data, now).value, now)
    ensures r.result.Ok? <==>
              && id in s.tasks && CheckFields(data, partial).None? && Validate(data, now).Ok?
              && CanBeModified(s.tasks[id], now) == Some(true)
              && Schedulable(ApplyPayload(s.tasks[id], Validate(data, now).value))
    ensures ShortInterval(data) ==> r.result.Err?
  {
    if id !in s.tasks then Reply(s, Err(NotFound))
    else
      match CheckFields(data, partial)
      case Some(e) => Reply(s, Err(Invalid(e)))
      case None =>
        match Validate(data, now)
        case Err(e) => Reply(s, Err(Invalid(e)))
        case Ok(valid) => Update(s, id, valid, now)
  }

  lemma UpdateTaskValid(s: Store, id: nat, data: Payload, now: int, partial: bool)
    requires Valid(s)
    ensures Valid(UpdateTask(s, id, data, now, partial).store)
  {
    if UpdateTask(s, id, data, now, partial).result.Ok? {
      UpdateValid(s, id, Validate(data, now).value, now);
    }
  }

  /** A PATCH that clears the time of a modifiable ONE_TIME task passes the
      checks, but its schedule row fails: a server error, nothing changed. */
  lemma PatchClearingTime(s: Store, id: nat, now: int)
    requires id in s.tasks && s.tasks[id].scheduleType == OneTime
    requires CanBeModified(s.tasks[id], now) == Some(true)
    ensures UpdateTask(s, id, EmptyPayload.(scheduledTime := Some(None)), now, true)
            == Reply(s, Err(ServerError))
  {
    ValidateSkipsAbsentType(EmptyPayload.(scheduledTime := Some(None)), now);
  }

  /** A task whose one run has completed can no longer be edited, whatever
      the request sends. */
  lemma ExecutedOneTimeNotEditable(s: Store, id: nat, data: Payload, now: int, partial: bool)
    requires id in s.tasks && s.tasks[id].scheduleType == OneTime && s.tasks[id].executedOnce
    ensures UpdateTask(s, id, data, now, partial).store == s
    ensures UpdateTask(s, id, data, now, partial).result.Err?
  {
  }

  // ---------------------------------------------------------------------------
  // ScheduledTaskViewSet: the task actions
  // ---------------------------------------------------------------------------

  /** `pause`: only an ACTIVE task pauses. */
  function Pause(s: Store, id: nat, now: int): (r: Reply<()>)
    ensures r.result.Ok? <==> id in s.tasks && s.tasks[id].status == Active
    ensures id !in s.tasks ==> r.result == Err(NotFound)
    ensures id in s.tasks && s.tasks[id].status != Active ==> r.result == Err(CannotPause)
    ensures r.result.Err? ==> r.store == s
    ensures r.result.Ok? ==>
              && r.store.tasks == s.tasks[id := s.tasks[id].(status := Paused, isActive := false)]
              && r.store.periodic == SetEnabled(s.periodic, EntryName(id), false)
              && r.store.logs == s.logs
              && ExtendedBy(s.notifications, r.store.notifications, 1)
              && Emitted(r.store.notifications[|s.notifications|], System, Low, Some(id), None)
  {
    if id !in s.tasks then Reply(s, Err(NotFound))
    else if s.tasks[id].status != Active then Reply(s, Err(CannotPause))
    else
      var t := s.tasks[id];
      var s1 := s.(tasks := s.tasks[id := t.(status := Paused, isActive := false)],
                   periodic := SetEnabled(s.periodic, EntryName(id), false));
      Reply(Notify(s1, "Task Paused: " + t.name, System, Low, Some(id), None, now), Ok(()))
  }

  /** `resume`: only a PAUSED task resumes. */
  function Resume(s: Store, id: nat, now: int): (r: Reply<()>)
    ensures r.result.Ok? <==> id in s.tasks && s.tasks[id].status == Paused
    ensures id !in s.tasks ==> r.result == Err(NotFound)
    ensures id in s.tasks && s.tasks[id].status != Paused ==> r.result == Err(CannotResume)
    ensures r.result.Err? ==> r.store == s
    ensures r.result.Ok? ==>
              && r.store.tasks == s.tasks[id := s.tasks[id].(status := Active, isActive := true)]
              && r.store.periodic == SetEnabled(s.periodic, EntryName(id), true)
              && r.store.logs == s.logs
              && ExtendedBy(s.notifications, r.store.notifications, 1)
              && Emitted(r.store.notifications[|s.notifications|], System, Low, Some(id), None)
  {
    if id !in s.tasks then Reply(s, Err(NotFound))
    else if s.tasks[id].status != Paused then Reply(s, Err(CannotResume))
    else
      var t := s.tasks[id];
      var s1 := s.(tasks := s.tasks[id := t.(status := Active, isActive := true)],
                   periodic := SetEnabled(s.periodic, EntryName(id), true));
      Reply(Notify(s1, "Task Resumed: " + t.name, System, Low, Some(id), None, now), Ok(()))
  }

  /** In a consistent store, switching `is_active` through the entry's
      `enabled` flag is the same as rebuilding the entry. */
  lemma SetEnabledRebuilds(s: Store, id: nat, t: Task, enabled: bool)
    requires Valid(s) && id in s.tasks
    requires t == s.tasks[id].(status := t.status, isActive := enabled)
    ensures SetEnabled(s.periodic, EntryName(id), enabled) == s.periodic[EntryName(id) := EntryFor(t)]
  {
  }

  lemma PauseValid(s: Store, id: nat, now: int)
    requires Valid(s)
    ensures Valid(Pause(s, id, now).store)
  {
    if id in s.tasks && s.tasks[id].status == Active {
      var t := s.tasks[id].(status := Paused, isActive := false);
      SetEnabledRebuilds(s, id, t, false);
      ReplaceTaskValid(s, t);
      var s1 := s.(tasks := s.tasks[id := t], periodic := s.periodic[EntryName(id) := EntryFor(t)]);
      NotifyValid(s1, "Task Paused: " + s.tasks[id].name, System, Low, Some(id), None, now);
    }
  }

  lemma ResumeValid(s: Store, id: nat, now: int)
    requires Valid(s)
    ensures Valid(Resume(s, id, now).store)
  {
    if id in s.tasks && s.tasks[id].status == Paused {
      var t := s.tasks[id].(status := Active, isActive := true);
      SetEnabledRebuilds(s, id, t, true);
      ReplaceTaskValid(s, t);
      var s1 := s.(tasks := s.tasks[id := t], periodic := s.periodic[EntryName(id) := EntryFor(t)]);
      NotifyValid(s1, "Task Resumed: " + s.tasks[id].name, System, Low, Some(id), None, now);
    }
  }

  /** Pausing an ACTIVE task and resuming it brings it back to ACTIVE with
      `is_active` set, every other field as before, and two notifications
      more. When the task was active to begin with, the tasks and periodic
      entries of a consistent store are exactly as before. */
  lemma PauseResumeRoundTrip(s: Store, id: nat, t1: int, t2: int)
    requires id in s.tasks && s.tasks[id].status == Active
    ensures Pause(s, id, t1).result.Ok?
    ensures Resume(Pause(s, id, t1).store, id, t2).result.Ok?
    ensures var r := Resume(Pause(s, id, t1).store, id, t2).store;
            && r.tasks == s.tasks[id := s.tasks[id].(isActive := true)]
            && r.logs == s.logs
            && ExtendedBy(s.notifications, r.notifications, 2)
    ensures Valid(s) && s.tasks[id].isActive ==>
              var r := Resume(Pause(s, id, t1).store, id, t2).store;
              r.tasks == s.tasks && r.periodic == s.periodic
  {
    var p := Pause(s, id, t1);
    var q := Resume(p.store, id, t2);
    RoundTripTasks(s, p.store, q.store, id);
    ExtendedTrans(s.notifications, p.store.notifications, q.store.notifications, 1, 1);
    if Valid(s) && s.tasks[id].isActive {
      SetEnabledTwice(s.periodic, EntryName(id));
    }
  }

  lemma RoundTripTasks(s: Store, p: Store, r: Store, id: nat)
    requires id in s.tasks && s.tasks[id].status == Active
    requires p.tasks == s.tasks[id := s.tasks[id].(status := Paused, isActive := false)]
    requires r.tasks == p.tasks[id := p.tasks[id].(status := Active, isActive := true)]
    ensures r.tasks == s.tasks[id := s.tasks[id].(isActive := true)]
    ensures s.tasks[id].isActive ==> r.tasks == s.tasks
  {
    var t := s.tasks[id];
    assert p.tasks[id].(status := Active, isActive := true) == t.(isActive := true);
    if t.isActive {
      assert t.(isActive := true) == t;
    }
  }

  /** Disabling and re-enabling an entry that was enabled restores it. */
  lemma SetEnabledTwice(entries: Entries, name: string)
    requires name in entries && entries[name].enabled
    ensures SetEnabled(SetEnabled(entries, name, false), name, true) == entries
  {
    assert entries[name].(enabled := true) == entries[name];
  }

  /** `execute_now`: hands the task to the worker queue without any check
      of its schedule; the run itself is `Tasks.ExecuteScheduledTask` with
      retry count 0. Answers the id that was queued. */
  function ExecuteNow(s: Store, id: nat): (r: Reply<nat>)
    ensures r.store == s
    ensures r.result.Ok? <==> id in s.tasks
    ensures r.result.Ok? ==> r.result.value == id
    ensures r.result.Err? ==> r.result.error == NotFound
  {
    if id in s.tasks then Reply(s, Ok(id)) else Reply(s, Err(NotFound))
  }

  /** The run `execute_now` queues is `Tasks.ExecuteScheduledTask` on retry 0
      of the id it answers: the request is refused exactly when that run
      would find no task, and when the task is active the run writes a log
      of that task with retry count 0. */
  lemma ExecuteNowQueuesRun(s: Store, id: nat, body: Tasks.BodyOutcome, now: int, done: int)
    ensures var run := Tasks.ExecuteScheduledTask(s, id, 0, body, now, done);
            ExecuteNow(s, id).result == Err(NotFound) <==> run.result == Tasks.TaskNotFound
    ensures var r := ExecuteNow(s, id);
            r.result.Ok? && s.tasks[r.result.value].isActive ==>
              var run := Tasks.ExecuteScheduledTask(s, r.result.value, 0, body, now, done);
              && ExtendedBy(s.logs, run.store.logs, 1)
              && run.store.logs[|s.logs|].taskId == id
              && run.store.logs[|s.logs|].retryCount == 0
  {
  }

  /** How many logs the `logs` action returns. */
  const LogsShown: nat := 50

  /** `logs`: the task's newest 50 logs. */
  function TaskLogs(s: Store, id: nat): (r: Result<seq<ExecutionLog>, ApiError>)
    ensures r.Ok? <==> id in s.tasks
    ensures r.Err? ==> r.error == NotFound
    ensures r.Ok? ==> |r.value| <= LogsShown && r.value == RecentLogs(s.logs, id, LogsShown)
    ensures r.Ok? ==> forall l :: l in r.value ==> l in s.logs && l.taskId == id
  {
    if id in s.tasks then Ok(RecentLogs(s.logs, id, LogsShown)) else Err(NotFound)
  }

  /** What deleting the task row does to a notification: the task and log
      foreign keys are SET_NULL. */
  function Unlink(n: Notification, id: nat, removedLogs: set<nat>): (r: Notification)
    ensures r.(taskId := n.taskId, logId := n.logId) == n
    ensures r.taskId == if n.taskId == Some(id) then None else n.taskId
    ensures r.logId == if n.logId.Some? && n.logId.value in removedLogs then None else n.logId
  {
    n.(taskId := if n.taskId == Some(id) then None else n.taskId,
       logId := if n.logId.Some? && n.logId.value in removedLogs then None else n.logId)
  }

  function UnlinkAll(ns: seq<Notification>, id: nat, removedLogs: set<nat>): (r: seq<Notification>)
    ensures |r| == |ns|
    ensures forall i :: 0 <= i < |ns| ==> r[i] == Unlink(ns[i], id, removedLogs)
  {
    seq(|ns|, i requires 0 <= i < |ns| => Unlink(ns[i], id, removedLogs))
  }

  /** `instance.delete()`: the row goes, its logs cascade, and links to the
      row or to those logs are cleared. */
  function DeleteTaskRow(s: Store, id: nat): Store {
    var removed := LogIds(LogsOf(s.logs, id));
    s.(tasks := s.tasks - {id},
       logs := Select(s.logs, id, false),
       notifications := UnlinkAll(s.notifications, id, removed))
  }

  /** `destroy`: refused unless `can_be_deleted`; otherwise the periodic
      entry goes, an unlinked SYSTEM notification is written, and the row is
      deleted. */
  function Destroy(s: Store, id: nat, now: int): (r: Reply<()>)
    ensures r.result.Ok? <==> id in s.tasks && CanBeDeleted(s.tasks[id])
    ensures id !in s.tasks ==> r.result == Err(NotFound)
    ensures id in s.tasks && !CanBeDeleted(s.tasks[id]) ==> r.result == Err(CannotDelete)
    ensures r.result.Err? ==> r.store == s
    ensures r.result.Ok? ==>
              && r.store.tasks == s.tasks - {id}
              && r.store.periodic == DeleteEntry(s.periodic, EntryName(id))
              && (forall l :: l in r.store.logs <==> l in s.logs && l.taskId != id)
              && |r.store.notifications| == |s.notifications| + 1
              && (forall i :: 0 <= i < |s.notifications| ==>
                    r.store.notifications[i] == Unlink(s.notifications[i], id, LogIds(LogsOf(s.logs, id))))
              && Emitted(r.store.notifications[|s.notifications|], System, Low, None, None)
              && (forall n :: n in r.store.notifications ==> n.taskId != Some(id))
  {
    if id !in s.tasks then Reply(s, Err(NotFound))
    else if !CanBeDeleted(s.tasks[id]) then Reply(s, Err(CannotDelete))
    else
      var s1 := s.(periodic := DeleteEntry(s.periodic, EntryName(id)));
      var s2 := Notify(s1, "Task Deleted: " + s.tasks[id].name, System, Low, None, None, now);
      var r := DeleteTaskRow(s2, id);
      assert forall i :: 0 <= i < |s.notifications| ==> s2.notifications[i] == s.notifications[i];
      Reply(r, Ok(()))
  }

  lemma DestroyValid(s: Store, id: nat, now: int)
    requires Valid(s)
    ensures Valid(Destroy(s, id, now).store)
  {
    if id in s.tasks && CanBeDeleted(s.tasks[id]) {
      var s1 := s.(periodic := DeleteEntry(s.periodic, EntryName(id)));
      var s2 := Notify(s1, "Task Deleted: " + s.tasks[id].name, System, Low, None, None, now);
      DeleteRowValid(s, s2, id);
    }
  }

  lemma DeleteRowValid(s: Store, s2: Store, id: nat)
    requires Valid(s) && id in s.tasks
    requires s2.tasks == s.tasks && s2.logs == s.logs
    requires s2.periodic == DeleteEntry(s.periodic, EntryName(id))
    requires s2.nextTaskId == s.nextTaskId && s2.nextLogId == s.nextLogId
    requires s2.nextNotificationId == s.nextNotificationId + 1
    requires ExtendedBy(s.notifications, s2.notifications, 1)
    requires var n := s2.notifications[|s.notifications|];
             n.id == s.nextNotificationId && n.taskId.None? && n.logId.None?
    ensures Valid(DeleteTaskRow(s2, id))
  {
    var r := DeleteTaskRow(s2, id);
    DeleteRowPeriodic(s, r, id);
    SelectKeepsIncreasing(s.logs, id, false);
    assert LogsConsistent(r);
    DeleteRowNotifications(s, s2, id);
  }

  lemma DeleteRowPeriodic(s: Store, r: Store, id: nat)
    requires PeriodicConsistent(s) && id in s.tasks
    requires r.tasks == s.tasks - {id}
    requires r.periodic == DeleteEntry(s.periodic, EntryName(id))
    ensures PeriodicConsistent(r)
  {
    assert (set k | k in r.tasks :: EntryName(k)) == (set k | k in s.tasks :: EntryName(k)) - {EntryName(id)} by {
      forall k | k in s.tasks && k != id ensures EntryName(k) != EntryName(id) {
        EntryNameInjective(k, id);
      }
    }
    forall k | k in r.tasks ensures r.periodic[EntryName(k)] == EntryFor(r.tasks[k]) {
      EntryNameInjective(k, id);
    }
  }

  lemma DeleteRowNotifications(s: Store, s2: Store, id: nat)
    requires Valid(s) && id in s.tasks
    requires s2.tasks == s.tasks && s2.logs == s.logs
    requires s2.nextNotificationId == s.nextNotificationId + 1
    requires ExtendedBy(s.notifications, s2.notifications, 1)
    requires var n := s2.notifications[|s.notifications|];
             n.id == s.nextNotificationId && n.taskId.None? && n.logId.None?
    ensures NotificationsConsistent(DeleteTaskRow(s2, id))
  {
    var r := DeleteTaskRow(s2, id);
    forall i | 0 <= i < |r.notifications|
      ensures NotificationLinked(r, r.notifications[i])
    {
      if i < |s.notifications| {
        assert s2.notifications[i] == s.notifications[i];
        assert NotificationLinked(s, s.notifications[i]);
        UnlinkKeepsLinked(s, r, s.notifications[i], id);
      }
    }
    DeleteRowIdsIncreasing(s, s2, r.notifications, id);
  }

  /** After the row and its logs go, an unlinked notification points only at
      rows that remain. */
  lemma UnlinkKeepsLinked(s: Store, r: Store, n: Notification, id: nat)
    requires NotificationLinked(s, n)
    requires r.tasks == s.tasks - {id}
    requires r.logs == Select(s.logs, id, false)
    requires r.nextNotificationId >= s.nextNotificationId
    ensures NotificationLinked(r, Unlink(n, id, LogIds(LogsOf(s.logs, id))))
  {
    var removed := LogIds(LogsOf(s.logs, id));
    var m := Unlink(n, id, removed);
    if m.logId.Some? {
      var x := m.logId.value;
      assert x in LogIds(s.logs) && x !in removed;
      var l :| l in s.logs && l.id == x;
      assert l in r.logs;
    }
  }

  lemma DeleteRowIdsIncreasing(s: Store, s2: Store, ns: seq<Notification>, id: nat)
    requires NotificationsConsistent(s)
    requires ExtendedBy(s.notifications, s2.notifications, 1)
    requires s2.notifications[|s.notifications|].id == s.nextNotificationId
    requires |ns| == |s2.notifications|
    requires forall i :: 0 <= i < |ns| ==> ns[i].id == s2.notifications[i].id
    ensures IncreasingNotificationIds(ns)
  {
    forall i, j | 0 <= i < j < |ns|
      ensures ns[i].id < ns[j].id
    {
      assert s2.notifications[i] == s.notifications[i];
      if j < |s.notifications| {
        assert s2.notifications[j] == s.notifications[j];
      } else {
        assert NotificationLinked(s, s.notifications[i]);
      }
    }
  }

  /** `status` is a writable field, so a client may store COMPLETED or FAILED
      on a CRON or INTERVAL task. Such a task keeps `is_active` and an
      enabled entry, so it keeps running, but every action that could stop
      it is refused: pause, resume, edit and delete. */
  lemma TerminalRecurringStranded(s: Store, id: nat, data: Payload, now: int, partial: bool)
    requires Valid(s) && id in s.tasks
    requires s.tasks[id].scheduleType != OneTime && s.tasks[id].isActive
    requires s.tasks[id].status == Completed || s.tasks[id].status == Failed
    ensures EntryName(id) in s.periodic && s.periodic[EntryName(id)].enabled
    ensures Pause(s, id, now) == Reply(s, Err(CannotPause))
    ensures Resume(s, id, now) == Reply(s, Err(CannotResume))
    ensures UpdateTask(s, id, data, now, partial).store == s
    ensures UpdateTask(s, id, data, now, partial).result.Err?
    ensures Destroy(s, id, now) == Reply(s, Err(CannotDelete))
  {
    EnabledMirrorsActive(s, id);
  }

  // ---------------------------------------------------------------------------
  // NotificationViewSet
  // ---------------------------------------------------------------------------

  /** The position of the notification with that id. */
  function Find(ns: seq<Notification>, nid: nat): (r: Option<nat>)
    ensures r.Some? ==> r.value < |ns| && ns[r.value].id == nid
    ensures r.None? ==> forall i :: 0 <= i < |ns| ==> ns[i].id != nid
    decreases |ns|
  {
    if ns == [] then None
    else if ns[0].id == nid then Some(0)
    else
      match Find(ns[1..], nid)
      case None => None
      case Some(k) => Some(k + 1)
  }

  function CountUnread(ns: seq<Notification>): (c: nat)
    ensures c <= |ns|
    decreases |ns|
  {
    if ns == [] then 0 else (if ns[0].isRead then 0 else 1) + CountUnread(ns[1..])
  }

  function CountReadUnarchived(ns: seq<Notification>): (c: nat)
    ensures c <= |ns|
    decreases |ns|
  {
    if ns == [] then 0
    else (if ns[0].isRead && !ns[0].isArchived then 1 else 0) + CountReadUnarchived(ns[1..])
  }

  /** No unread notification is left exactly when the count is zero. */
  lemma {:induction false} CountUnreadZero(ns: seq<Notification>)
    ensures CountUnread(ns) == 0 <==> forall i :: 0 <= i < |ns| ==> ns[i].isRead
    decreases |ns|
  {
    if ns != [] {
      CountUnreadZero(ns[1..]);
      assert forall i :: 1 <= i < |ns| ==> ns[i] == ns[1..][i - 1];
    }
  }

  lemma {:induction false} CountReadUnarchivedZero(ns: seq<Notification>)
    ensures CountReadUnarchived(ns) == 0 <==>
            forall i :: 0 <= i < |ns| ==> !ns[i].isRead || ns[i].isArchived
    decreases |ns|
  {
    if ns != [] {
      CountReadUnarchivedZero(ns[1..]);
      assert forall i :: 1 <= i < |ns| ==> ns[i] == ns[1..][i - 1];
    }
  }

  /** `mark_as_read` on one notification. */
  function MarkNotificationRead(s: Store, nid: nat): (r: Reply<()>)
    ensures r.result.Ok? <==> exists i :: 0 <= i < |s.notifications| && s.notifications[i].id == nid
    ensures r.result.Err? ==> r == Reply(s, Err(NotFound))
    ensures r.result.Ok? ==>
              var k := Find(s.notifications, nid).value;
              && r.store == s.(notifications := s.notifications[k := MarkAsRead(s.notifications[k])])
              && r.store.notifications[k].isRead
  {
    match Find(s.notifications, nid)
    case None => Reply(s, Err(NotFound))
    case Some(k) => Reply(s.(notifications := s.notifications[k := MarkAsRead(s.notifications[k])]), Ok(()))
  }

  /** The `is_read` of a PATCH body as the parsed request data holds it:
      absent, a JSON boolean, null, a string, a number equal to an integer,
      or anything else (a list, an object, a fractional number). */
  datatype RawValue = Absent | Bool(b: bool) | Null | Text(text: string) | Number(n: int) | Other

  /** What saving the raw value into the BooleanField stores: Django turns
      true, 1, "t", "True" and "1" into true and false, 0, "f", "False" and
      "0" into false. Null breaks the NOT NULL column and anything else
      fails the field's conversion; both are `None`. An absent value is the
      view's default, true. */
  function StoredFlag(v: RawValue): Option<bool> {
    match v
    case Absent => Some(true)
    case Bool(b) => Some(b)
    case Null => None
    case Text(x) =>
      if x == "t" || x == "True" || x == "1" then Some(true)
      else if x == "f" || x == "False" || x == "0" then Some(false)
      else None
    case Number(n) => if n == 1 then Some(true) else if n == 0 then Some(false) else None
    case Other => None
  }

  /** `NotificationViewSet.partial_update`: sets `is_read` to the sent value,
      true when none is sent, and saves. A value the column cannot store
      makes the save raise: a server error, nothing changed. */
  function PartialUpdateNotification(s: Store, nid: nat, isRead: RawValue): (r: Reply<Notification>)
    ensures (exists i :: 0 <= i < |s.notifications| && s.notifications[i].id == nid) <==>
            r.result != Err(NotFound)
    ensures r.result.Ok? <==>
              (exists i :: 0 <= i < |s.notifications| && s.notifications[i].id == nid)
              && StoredFlag(isRead).Some?
    ensures r.result.Err? ==> r.store == s
    ensures r.result.Err? ==> r.result.error == NotFound || r.result.error == ServerError
    ensures r.result.Ok? ==>
              var k := Find(s.notifications, nid).value;
              var n := r.result.value;
              && n.isRead == StoredFlag(isRead).value
              && n.(isRead := s.notifications[k].isRead) == s.notifications[k]
              && r.store == s.(notifications := s.notifications[k := n])
  {
    match Find(s.notifications, nid)
    case None => Reply(s, Err(NotFound))
    case Some(k) =>
      match StoredFlag(isRead)
      case None => Reply(s, Err(ServerError))
      case Some(flag) =>
        var n := s.notifications[k].(isRead := flag);
        Reply(s.(notifications := s.notifications[k := n]), Ok(n))
  }

  /** A PATCH that sends no `is_read` is a `mark_as_read`. */
  lemma PartialUpdateDefaultMarksRead(s: Store, nid: nat)
    ensures PartialUpdateNotification(s, nid, Absent).store == MarkNotificationRead(s, nid).store
    ensures PartialUpdateNotification(s, nid, Absent).result.Ok? <==>
            MarkNotificationRead(s, nid).result.Ok?
  {
  }

  /** A PATCH that sends `"is_read": null` for a stored notification fails on
      the NOT NULL column. */
  lemma PartialUpdateNullFails(s: Store, nid: nat)
    requires exists i :: 0 <= i < |s.notifications| && s.notifications[i].id == nid
    ensures PartialUpdateNotification(s, nid, Null) == Reply(s, Err(ServerError))
  {
  }

  /** The `filter(is_read=False).update(is_read=True)` of `mark_all_as_read`. */
  function ReadAll(ns: seq<Notification>): (r: seq<Notification>)
    ensures |r| == |ns|
    ensures forall i :: 0 <= i < |ns| ==>
              r[i].isRead && r[i].(isRead := ns[i].isRead) == ns[i]
    ensures CountUnread(r) == 0
    decreases |ns|
  {
    if ns == [] then []
    else
      var rest := ReadAll(ns[1..]);
      var head := if ns[0].isRead then ns[0] else MarkAsRead(ns[0]);
      var r := [head] + rest;
      assert r[1..] == rest;
      r
  }

  /** `mark_all_as_read`: answers how many notifications it changed. */
  function MarkAllAsRead(s: Store): (r: Reply<nat>)
    ensures r.result.Ok?
    ensures r.result.value == CountUnread(s.notifications)
    ensures r.store == s.(notifications := r.store.notifications)
    ensures CountUnread(r.store.notifications) == 0
    ensures |r.store.notifications| == |s.notifications|
    ensures forall i :: 0 <= i < |s.notifications| && s.notifications[i].isRead ==>
              r.store.notifications[i] == s.notifications[i]
  {
    Reply(s.(notifications := ReadAll(s.notifications)), Ok(CountUnread(s.notifications)))
  }

  /** `unread_count`. */
  function UnreadCount(s: Store): nat {
    CountUnread(s.notifications)
  }

  /** Right after `mark_all_as_read` the unread count is zero; what it
      reported is the count before. */
  lemma MarkAllThenCount(s: Store)
    ensures UnreadCount(MarkAllAsRead(s).store) == 0
    ensures MarkAllAsRead(s).result == Ok(UnreadCount(s))
  {
  }

  /** The unread count is zero exactly when every notification is read. */
  lemma UnreadCountZero(s: Store)
    ensures UnreadCount(s) <= |s.notifications|
    ensures UnreadCount(s) == 0 <==> forall i :: 0 <= i < |s.notifications| ==> s.notifications[i].isRead
  {
    CountUnreadZero(s.notifications);
  }

  /** The `filter(is_read=True, is_archived=False).update(is_archived=True)`
      of `archive_all_read`. */
  function ArchiveRead(ns: seq<Notification>): (r: seq<Notification>)
    ensures |r| == |ns|
    ensures forall i :: 0 <= i < |ns| ==>
              && r[i].(isArchived := ns[i].isArchived) == ns[i]
              && (r[i].isArchived <==> ns[i].isArchived || ns[i].isRead)
    ensures CountReadUnarchived(r) == 0
    decreases |ns|
  {
    if ns == [] then []
    else
      var rest := ArchiveRead(ns[1..]);
      var head := if ns[0].isRead && !ns[0].isArchived then ns[0].(isArchived := true) else ns[0];
      var r := [head] + rest;
      assert r[1..] == rest;
      r
  }

  /** `archive_all_read`: answers how many notifications it archived. */
  function ArchiveAllRead(s: Store): (r: Reply<nat>)
    ensures r.result.Ok?
    ensures r.result.value == CountReadUnarchived(s.notifications)
    ensures r.store == s.(notifications := r.store.notifications)
    ensures |r.store.notifications| == |s.notifications|
    ensures forall i :: 0 <= i < |s.notifications| && !s.notifications[i].isRead ==>
              r.store.notifications[i] == s.notifications[i]
  {
    Reply(s.(notifications := ArchiveRead(s.notifications)), Ok(CountReadUnarchived(s.notifications)))
  }

  /** A second `archive_all_read` archives nothing and changes nothing. */
  lemma ArchiveAllReadIdempotent(s: Store)
    ensures var once := ArchiveAllRead(s).store;
            ArchiveAllRead(once).result == Ok(0) && ArchiveAllRead(once).store == once
  {
    var once := ArchiveAllRead(s).store;
    var twice := ArchiveAllRead(once).store;
    assert twice.notifications == once.notifications;
  }

  lemma MarkNotificationReadValid(s: Store, nid: nat)
    requires Valid(s)
    ensures Valid(MarkNotificationRead(s, nid).store)
  {
    SameLinksValid(s, MarkNotificationRead(s, nid).store.notifications);
  }

  lemma PartialUpdateNotificationValid(s: Store, nid: nat, isRead: RawValue)
    requires Valid(s)
    ensures Valid(PartialUpdateNotification(s, nid, isRead).store)
  {
    SameLinksValid(s, PartialUpdateNotification(s, nid, isRead).store.notifications);
  }

  lemma MarkAllAsReadValid(s: Store)
    requires Valid(s)
    ensures Valid(MarkAllAsRead(s).store)
  {
    SameLinksValid(s, MarkAllAsRead(s).store.notifications);
  }

  lemma ArchiveAllReadValid(s: Store)
    requires Valid(s)
    ensures Valid(ArchiveAllRead(s).store)
  {
    SameLinksValid(s, ArchiveAllRead(s).store.notifications);
  }
}
