/** The periodic-task entries the scheduler keeps in django_celery_beat.

    Each scheduled task owns one entry named `scheduled-task-<id>` that tells
    beat when to call `execute_scheduled_task(id)`. Only the parts the
    scheduler writes are modelled: the schedule row it points to, `one_off`,
    the task argument and `enabled`. The name-to-entry map stands for the
    PeriodicTask table.
 */
module Beat {
  import opened Base
  import opened Models

  /** The schedule row an entry points to: a ClockedSchedule, a
      CrontabSchedule or an IntervalSchedule in seconds. The clocked time and
      the interval are NOT NULL columns. */
  datatype BeatSchedule =
    | Clocked(clockedTime: int)
    | Crontab(fields: CronFields)
    | Every(seconds: int)

  datatype PeriodicEntry = PeriodicEntry(
    taskId: nat,
    schedule: BeatSchedule,
    oneOff: bool,
    enabled: bool)

  type Entries = map<string, PeriodicEntry>

  const NamePrefix: string := "scheduled-task-"

  function EntryName(id: nat): string {
    NamePrefix + Decimal(id)
  }

  lemma EntryNameInjective(a: nat, b: nat)
    ensures EntryName(a) == EntryName(b) ==> a == b
  {
    if EntryName(a) == EntryName(b) {
      assert Decimal(a) == EntryName(a)[|NamePrefix|..];
      assert Decimal(b) == EntryName(b)[|NamePrefix|..];
      DecimalInjective(a, b);
    }
  }

  /** A stored cron field, or `*` when it is empty. */
  function OrAny(field: string): (r: string)
    ensures r != ""
    ensures field == "" ==> r == AnyValue
    ensures field != "" ==> r == field
  {
    if field == "" then AnyValue else field
  }

  /** Whether the schedule row of a task can be stored: a ONE_TIME task needs
      its time and an INTERVAL task its interval, since those columns may not
      be null. */
  predicate Schedulable(t: Task) {
    && (t.scheduleType == OneTime ==> t.scheduledTime.Some?)
    && (t.scheduleType == Interval ==> t.intervalSeconds.Some?)
  }

  /** The entry `_create_periodic_task` builds for a task. */
  function EntryFor(t: Task): (e: PeriodicEntry)
    requires Schedulable(t)
    ensures e.taskId == t.id
    ensures e.enabled == t.isActive
    ensures e.oneOff <==> t.scheduleType == OneTime
    ensures t.scheduleType == OneTime <==> e.schedule.Clocked?
    ensures t.scheduleType == Cron <==> e.schedule.Crontab?
    ensures e.schedule.Clocked? ==> t.scheduledTime == Some(e.schedule.clockedTime)
    ensures e.schedule.Every? ==> t.intervalSeconds == Some(e.schedule.seconds)
    ensures e.schedule.Crontab? ==>
              e.schedule.fields == CronFields(OrAny(t.cron.minute), OrAny(t.cron.hour),
                                              OrAny(t.cron.dayOfWeek), OrAny(t.cron.dayOfMonth),
                                              OrAny(t.cron.monthOfYear))
  {
    match t.scheduleType
    case OneTime =>
      PeriodicEntry(t.id, Clocked(t.scheduledTime.value), true, t.isActive)
    case Cron =>
      var c := t.cron;
      PeriodicEntry(t.id,
                    Crontab(CronFields(OrAny(c.minute), OrAny(c.hour), OrAny(c.dayOfWeek),
                                       OrAny(c.dayOfMonth), OrAny(c.monthOfYear))),
                    false, t.isActive)
    case Interval =>
      PeriodicEntry(t.id, Every(t.intervalSeconds.value), false, t.isActive)
  }

  /** `_create_periodic_task` (and `_update_periodic_task`, which calls it):
      delete any entry of that name, then store the schedule row and create
      the task's entry. A missing time or interval makes the schedule row
      raise, after the delete; `Err` carries the entries as the raise leaves
      them. */
  function CreatePeriodicTask(entries: Entries, t: Task): (r: Result<Entries, Entries>)
    ensures r.Ok? <==> Schedulable(t)
    ensures r.Ok? ==>
              && r.value.Keys == entries.Keys + {EntryName(t.id)}
              && r.value[EntryName(t.id)] == EntryFor(t)
              && (forall n :: n in entries && n != EntryName(t.id) ==> r.value[n] == entries[n])
    ensures r.Err? ==> r.error == DeleteEntry(entries, EntryName(t.id))
  {
    if Schedulable(t) then Ok(entries[EntryName(t.id) := EntryFor(t)])
    else Err(DeleteEntry(entries, EntryName(t.id)))
  }

  /** `PeriodicTask.objects.filter(name=...).update(enabled=...)`: changes the
      entry of that name if there is one and does nothing otherwise. */
  function SetEnabled(entries: Entries, name: string, enabled: bool): (r: Entries)
    ensures r.Keys == entries.Keys
    ensures name in r ==> r[name] == entries[name].(enabled := enabled)
    ensures forall n :: n in entries && n != name ==> r[n] == entries[n]
  {
    if name in entries then entries[name := entries[name].(enabled := enabled)] else entries
  }

  /** `PeriodicTask.objects.filter(name=...).delete()`. */
  function DeleteEntry(entries: Entries, name: string): (r: Entries)
    ensures r.Keys == entries.Keys - {name}
    ensures forall n :: n in r ==> r[n] == entries[n]
  {
    entries - {name}
  }
}
