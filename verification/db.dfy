/** The durable state the scheduler app works on: the three tables of its
    own models plus beat's periodic-task table, and the identifier counters
    the database assigns from.

    Execution logs and notifications are kept in insertion order; each row
    carries the identifier the database gave it.
 */
module Db {
  import opened Base
  import opened Models
  import opened Beat

  datatype Store = Store(
    tasks: map<nat, Task>,
    logs: seq<ExecutionLog>,
    notifications: seq<Notification>,
    periodic: Entries,
    nextTaskId: nat,
    nextLogId: nat,
    nextNotificationId: nat)

  const EmptyStore: Store := Store(map[], [], [], map[], 1, 1, 1)

  /** `Notification.objects.create(...)`: a new unread, unarchived row. */
  function Notify(s: Store, title: string, category: Category, priority: Priority,
                  taskId: Option<nat>, logId: Option<nat>, now: int): (r: Store)
    ensures r.tasks == s.tasks && r.logs == s.logs && r.periodic == s.periodic
    ensures r.nextTaskId == s.nextTaskId && r.nextLogId == s.nextLogId
    ensures r.nextNotificationId == s.nextNotificationId + 1
    ensures |r.notifications| == |s.notifications| + 1
    ensures r.notifications[..|s.notifications|] == s.notifications
    ensures var n := r.notifications[|s.notifications|];
            n.id == s.nextNotificationId && n.title == title
            && n.category == category && n.priority == priority
            && n.taskId == taskId && n.logId == logId
            && !n.isRead && !n.isArchived && n.createdAt == now
  {
    var n := Notification(s.nextNotificationId, title, category, priority, taskId, logId,
                          false, false, now);
    s.(notifications := s.notifications + [n], nextNotificationId := s.nextNotificationId + 1)
  }

  /** `ExecutionLog.objects.create(...)`. */
  function AppendLog(s: Store, taskId: nat, status: LogStatus,
                     details: Option<ErrorDetails>, retryCount: nat, now: int): (r: Store)
    ensures r.tasks == s.tasks && r.notifications == s.notifications && r.periodic == s.periodic
    ensures r.nextTaskId == s.nextTaskId && r.nextNotificationId == s.nextNotificationId
    ensures r.nextLogId == s.nextLogId + 1
    ensures r.logs == s.logs + [ExecutionLog(s.nextLogId, taskId, now, status, details, retryCount)]
  {
    var l := ExecutionLog(s.nextLogId, taskId, now, status, details, retryCount);
    s.(logs := s.logs + [l], nextLogId := s.nextLogId + 1)
  }

  /** `after` is `before` with `k` rows appended. */
  predicate ExtendedBy<T(==)>(before: seq<T>, after: seq<T>, k: nat) {
    |after| == |before| + k && after[..|before|] == before
  }

  lemma ExtendedTrans<T>(a: seq<T>, b: seq<T>, c: seq<T>, j: nat, k: nat)
    requires ExtendedBy(a, b, j) && ExtendedBy(b, c, k)
    ensures ExtendedBy(a, c, j + k)
  {
    assert c[..|a|] == c[..|b|][..|a|];
  }

  /** A freshly emitted notification of that kind and those links. */
  predicate Emitted(n: Notification, category: Category, priority: Priority,
                    taskId: Option<nat>, logId: Option<nat>) {
    && n.category == category && n.priority == priority
    && n.taskId == taskId && n.logId == logId
    && !n.isRead && !n.isArchived
  }

  function LogIds(logs: seq<ExecutionLog>): set<nat> {
    set l | l in logs :: l.id
  }

  lemma LogIdsAppend(logs: seq<ExecutionLog>, l: ExecutionLog)
    ensures LogIds(logs + [l]) == LogIds(logs) + {l.id}
  {
    var a := LogIds(logs + [l]);
    var b := LogIds(logs) + {l.id};
    forall x | x in a ensures x in b {
      var m :| m in logs + [l] && m.id == x;
      if m != l {
        assert m in logs;
      }
    }
    forall x | x in b ensures x in a {
      if x != l.id {
        var m :| m in logs && m.id == x;
        assert m in logs + [l];
      } else {
        assert l in logs + [l];
      }
    }
  }

  /** The logs that belong to task `id` (when `belonging`) or to any other
      task (otherwise), in their original order. */
  function Select(logs: seq<ExecutionLog>, id: nat, belonging: bool): (r: seq<ExecutionLog>)
    ensures |r| <= |logs|
    ensures forall l :: l in r ==> l in logs && (l.taskId == id) == belonging
    ensures forall l :: l in logs && (l.taskId == id) == belonging ==> l in r
    decreases |logs|
  {
    if logs == [] then []
    else
      var rest := Select(logs[1..], id, belonging);
      assert forall l :: l in logs[1..] ==> l in logs;
      if (logs[0].taskId == id) == belonging then [logs[0]] + rest else rest
  }

  /** `task.execution_logs.all()`, oldest first. */
  function LogsOf(logs: seq<ExecutionLog>, id: nat): seq<ExecutionLog> {
    Select(logs, id, true)
  }

  lemma HeadBelowTail(logs: seq<ExecutionLog>)
    requires |logs| > 0 && IncreasingLogIds(logs)
    ensures forall l :: l in logs[1..] ==> logs[0].id < l.id
    ensures IncreasingLogIds(logs[1..])
  {
    forall l | l in logs[1..] ensures logs[0].id < l.id {
      var k :| 0 <= k < |logs[1..]| && logs[1..][k] == l;
      assert logs[k + 1] == l;
    }
  }

  lemma {:induction false} SelectKeepsIncreasing(logs: seq<ExecutionLog>, id: nat, belonging: bool)
    requires IncreasingLogIds(logs)
    ensures IncreasingLogIds(Select(logs, id, belonging))
    decreases |logs|
  {
    if logs != [] {
      var tail := logs[1..];
      HeadBelowTail(logs);
      SelectKeepsIncreasing(tail, id, belonging);
      var rest := Select(tail, id, belonging);
      if (logs[0].taskId == id) == belonging {
        ConsIncreasing(logs[0], rest, tail);
      }
    }
  }

  /** A log below every log of `tail` stays below a selection from it. */
  lemma ConsIncreasing(h: ExecutionLog, rest: seq<ExecutionLog>, tail: seq<ExecutionLog>)
    requires IncreasingLogIds(rest)
    requires forall l :: l in rest ==> l in tail
    requires forall l :: l in tail ==> h.id < l.id
    ensures IncreasingLogIds([h] + rest)
  {
    var r := [h] + rest;
    forall i, j | 0 <= i < j < |r| ensures r[i].id < r[j].id {
      assert r[j] == rest[j - 1];
      if i == 0 {
        assert rest[j - 1] in rest;
      } else {
        assert r[i] == rest[i - 1];
      }
    }
  }

  /** A sequence read backwards. */
  function Reverse<T>(xs: seq<T>): (r: seq<T>)
    ensures |r| == |xs|
    ensures forall i :: 0 <= i < |xs| ==> r[i] == xs[|xs| - 1 - i]
    decreases |xs|
  {
    if xs == [] then [] else Reverse(xs[1..]) + [xs[0]]
  }

  // ---------------------------------------------------------------------------
  // The consistency the operations keep
  // ---------------------------------------------------------------------------

  /** Every task is stored under its own id, below the next id to assign. */
  ghost predicate TasksKeyed(s: Store) {
    forall id :: id in s.tasks ==> s.tasks[id].id == id && id < s.nextTaskId
  }

  /** Logs have increasing ids below the counter and belong to a stored task
      (the foreign key cascades, so no log outlives its task). */
  ghost predicate LogsConsistent(s: Store) {
    && (forall i :: 0 <= i < |s.logs| ==> s.logs[i].id < s.nextLogId && s.logs[i].taskId in s.tasks)
    && IncreasingLogIds(s.logs)
  }

  ghost predicate IncreasingLogIds(logs: seq<ExecutionLog>) {
    forall i, j :: 0 <= i < j < |logs| ==> logs[i].id < logs[j].id
  }

  /** Notifications have increasing ids below the counter, and their task and
      log links, when set, point at stored rows. */
  ghost predicate NotificationsConsistent(s: Store) {
    && (forall i :: 0 <= i < |s.notifications| ==> NotificationLinked(s, s.notifications[i]))
    && IncreasingNotificationIds(s.notifications)
  }

  ghost predicate IncreasingNotificationIds(ns: seq<Notification>) {
    forall i, j :: 0 <= i < j < |ns| ==> ns[i].id < ns[j].id
  }

  ghost predicate NotificationLinked(s: Store, n: Notification) {
    && n.id < s.nextNotificationId
    && (n.taskId.Some? ==> n.taskId.value in s.tasks)
    && (n.logId.Some? ==> n.logId.value in LogIds(s.logs))
  }

  /** Every task can have a schedule row, and its entry is the one
      `_create_periodic_task` would build from the task as it is now. */
  ghost predicate EntriesCurrent(s: Store) {
    forall id :: id in s.tasks ==>
      && Schedulable(s.tasks[id])
      && EntryName(id) in s.periodic
      && s.periodic[EntryName(id)] == EntryFor(s.tasks[id])
  }

  /** There is exactly one periodic entry per task, and it is current. */
  ghost predicate PeriodicConsistent(s: Store) {
    && s.periodic.Keys == (set id | id in s.tasks :: EntryName(id))
    && EntriesCurrent(s)
  }

  /** `next_execution` is read-only for the API and nothing in the app writes it. */
  ghost predicate NextExecutionUnset(s: Store) {
    forall id :: id in s.tasks ==> s.tasks[id].nextExecution.None?
  }

  ghost predicate Valid(s: Store) {
    && TasksKeyed(s)
    && LogsConsistent(s)
    && NotificationsConsistent(s)
    && PeriodicConsistent(s)
    && NextExecutionUnset(s)
  }

  lemma EmptyStoreValid()
    ensures Valid(EmptyStore)
  {
  }

  /** In a consistent store a task's periodic entry mirrors its `is_active`. */
  lemma EnabledMirrorsActive(s: Store, id: nat)
    requires Valid(s) && id in s.tasks
    ensures EntryName(id) in s.periodic
    ensures s.periodic[EntryName(id)].enabled == s.tasks[id].isActive
    ensures s.periodic[EntryName(id)].taskId == id
  {
  }

  lemma {:induction false} NotifyValid(s: Store, title: string, category: Category,
                                       priority: Priority, taskId: Option<nat>,
                                       logId: Option<nat>, now: int)
    requires Valid(s)
    requires taskId.Some? ==> taskId.value in s.tasks
    requires logId.Some? ==> logId.value in LogIds(s.logs)
    ensures Valid(Notify(s, title, category, priority, taskId, logId, now))
  {
    var r := Notify(s, title, category, priority, taskId, logId, now);
    forall i | 0 <= i < |r.notifications|
      ensures NotificationLinked(r, r.notifications[i])
    {
      if i < |s.notifications| {
        assert r.notifications[i] == s.notifications[i];
        assert NotificationLinked(s, s.notifications[i]);
      }
    }
    forall i, j | 0 <= i < j < |r.notifications|
      ensures r.notifications[i].id < r.notifications[j].id
    {
      assert r.notifications[i] == s.notifications[i];
      if j < |s.notifications| {
        assert r.notifications[j] == s.notifications[j];
      } else {
        assert NotificationLinked(s, s.notifications[i]);
      }
    }
  }

  lemma {:induction false} AppendLogValid(s: Store, taskId: nat, status: LogStatus,
                                          details: Option<ErrorDetails>,
                                          retryCount: nat, now: int)
    requires Valid(s)
    requires taskId in s.tasks
    ensures Valid(AppendLog(s, taskId, status, details, retryCount, now))
    ensures s.nextLogId in LogIds(AppendLog(s, taskId, status, details, retryCount, now).logs)
  {
    var r := AppendLog(s, taskId, status, details, retryCount, now);
    var l := ExecutionLog(s.nextLogId, taskId, now, status, details, retryCount);
    LogIdsAppend(s.logs, l);
    AppendLogLogs(s, l);
    AppendLogLinks(s, r);
  }

  lemma AppendLogLogs(s: Store, l: ExecutionLog)
    requires LogsConsistent(s)
    requires l.id == s.nextLogId && l.taskId in s.tasks
    ensures LogsConsistent(s.(logs := s.logs + [l], nextLogId := s.nextLogId + 1))
  {
    var logs := s.logs + [l];
    forall i, j | 0 <= i < j < |logs| ensures logs[i].id < logs[j].id {
      assert logs[i] == s.logs[i];
      if j < |s.logs| {
        assert logs[j] == s.logs[j];
      }
    }
  }

  /** Notifications keep their links when logs are only added. */
  lemma AppendLogLinks(s: Store, r: Store)
    requires NotificationsConsistent(s)
    requires r.notifications == s.notifications && r.nextNotificationId == s.nextNotificationId
    requires r.tasks == s.tasks && LogIds(s.logs) <= LogIds(r.logs)
    ensures NotificationsConsistent(r)
  {
    forall i | 0 <= i < |r.notifications|
      ensures NotificationLinked(r, r.notifications[i])
    {
      assert NotificationLinked(s, s.notifications[i]);
    }
  }

  /** Logs stay consistent when no task disappears and the logs are kept. */
  lemma LogsKept(s: Store, r: Store)
    requires LogsConsistent(s)
    requires r.logs == s.logs && r.nextLogId == s.nextLogId && s.tasks.Keys <= r.tasks.Keys
    ensures LogsConsistent(r)
  {
    forall i | 0 <= i < |r.logs|
      ensures r.logs[i].taskId in r.tasks
    {
      assert s.logs[i].taskId in s.tasks;
    }
  }

  /** Notifications stay consistent when no task disappears and the logs and
      notifications are kept. */
  lemma NotificationsKept(s: Store, r: Store)
    requires NotificationsConsistent(s)
    requires r.logs == s.logs && r.notifications == s.notifications
    requires r.nextNotificationId == s.nextNotificationId && s.tasks.Keys <= r.tasks.Keys
    ensures NotificationsConsistent(r)
  {
    forall i | 0 <= i < |r.notifications|
      ensures NotificationLinked(r, r.notifications[i])
    {
      assert NotificationLinked(s, s.notifications[i]);
    }
  }

  /** Replacing one stored task, together with its periodic entry, keeps the
      store consistent as long as the id and the unset `next_execution` stay
      and the task can have its schedule row. */
  lemma ReplaceTaskValid(s: Store, t: Task)
    requires Valid(s)
    requires t.id in s.tasks && t.nextExecution.None? && Schedulable(t)
    ensures Valid(s.(tasks := s.tasks[t.id := t],
                     periodic := s.periodic[EntryName(t.id) := EntryFor(t)]))
  {
    var r := s.(tasks := s.tasks[t.id := t],
                periodic := s.periodic[EntryName(t.id) := EntryFor(t)]);
    ReplaceTaskPeriodic(s, t);
    LogsKept(s, r);
    NotificationsKept(s, r);
    ReplaceTaskKeyed(s, t);
  }

  lemma ReplaceTaskKeyed(s: Store, t: Task)
    requires TasksKeyed(s) && NextExecutionUnset(s)
    requires t.id in s.tasks && t.nextExecution.None?
    ensures TasksKeyed(s.(tasks := s.tasks[t.id := t]))
    ensures NextExecutionUnset(s.(tasks := s.tasks[t.id := t]))
  {
    var tasks := s.tasks[t.id := t];
    forall id | id in tasks
      ensures tasks[id].id == id && id < s.nextTaskId && tasks[id].nextExecution.None?
    {
      assert id in s.tasks;
    }
  }

  lemma ReplaceTaskPeriodic(s: Store, t: Task)
    requires PeriodicConsistent(s)
    requires t.id in s.tasks && Schedulable(t)
    ensures PeriodicConsistent(s.(tasks := s.tasks[t.id := t],
                                  periodic := s.periodic[EntryName(t.id) := EntryFor(t)]))
  {
    var tasks := s.tasks[t.id := t];
    var periodic := s.periodic[EntryName(t.id) := EntryFor(t)];
    assert tasks.Keys == s.tasks.Keys;
    assert periodic.Keys == s.periodic.Keys;
    forall id | id in tasks
      ensures Schedulable(tasks[id]) && EntryName(id) in periodic
      ensures periodic[EntryName(id)] == EntryFor(tasks[id])
    {
      if id != t.id {
        EntryNameInjective(id, t.id);
        assert tasks[id] == s.tasks[id] && periodic[EntryName(id)] == s.periodic[EntryName(id)];
      }
    }
  }

  /** Inserting a new task under the next free id, with its periodic entry,
      keeps the store consistent. */
  lemma InsertTaskValid(s: Store, t: Task)
    requires Valid(s)
    requires t.id == s.nextTaskId && t.nextExecution.None? && Schedulable(t)
    ensures Valid(s.(tasks := s.tasks[t.id := t],
                     periodic := s.periodic[EntryName(t.id) := EntryFor(t)],
                     nextTaskId := t.id + 1))
  {
    var r := s.(tasks := s.tasks[t.id := t],
                periodic := s.periodic[EntryName(t.id) := EntryFor(t)],
                nextTaskId := t.id + 1);
    InsertTaskPeriodic(s, t);
    LogsKept(s, r);
    NotificationsKept(s, r);
    InsertTaskKeyed(s, t);
  }

  lemma InsertTaskKeyed(s: Store, t: Task)
    requires TasksKeyed(s) && NextExecutionUnset(s)
    requires t.id == s.nextTaskId && t.nextExecution.None?
    ensures TasksKeyed(s.(tasks := s.tasks[t.id := t], nextTaskId := t.id + 1))
    ensures NextExecutionUnset(s.(tasks := s.tasks[t.id := t], nextTaskId := t.id + 1))
  {
    var tasks := s.tasks[t.id := t];
    forall id | id in tasks
      ensures tasks[id].id == id && id < t.id + 1 && tasks[id].nextExecution.None?
    {
      if id != t.id {
        assert id in s.tasks;
      }
    }
  }

  lemma InsertTaskPeriodic(s: Store, t: Task)
    requires PeriodicConsistent(s) && TasksKeyed(s)
    requires t.id == s.nextTaskId && Schedulable(t)
    ensures PeriodicConsistent(s.(tasks := s.tasks[t.id := t],
                                  periodic := s.periodic[EntryName(t.id) := EntryFor(t)]))
  {
    InsertTaskNames(s, t);
    InsertTaskEntries(s, t);
  }

  lemma InsertTaskNames(s: Store, t: Task)
    requires PeriodicConsistent(s) && TasksKeyed(s)
    requires t.id == s.nextTaskId && Schedulable(t)
    ensures s.periodic[EntryName(t.id) := EntryFor(t)].Keys
            == (set k | k in s.tasks[t.id := t] :: EntryName(k))
  {
    assert t.id !in s.tasks;
    assert (set k | k in s.tasks[t.id := t] :: EntryName(k))
           == (set k | k in s.tasks :: EntryName(k)) + {EntryName(t.id)};
  }

  lemma InsertTaskEntries(s: Store, t: Task)
    requires EntriesCurrent(s) && Schedulable(t)
    ensures EntriesCurrent(s.(tasks := s.tasks[t.id := t],
                              periodic := s.periodic[EntryName(t.id) := EntryFor(t)]))
  {
    var tasks := s.tasks[t.id := t];
    var periodic := s.periodic[EntryName(t.id) := EntryFor(t)];
    forall k | k in tasks
      ensures Schedulable(tasks[k]) && EntryName(k) in periodic
      ensures periodic[EntryName(k)] == EntryFor(tasks[k])
    {
      if k != t.id {
        EntryNameInjective(k, t.id);
        assert tasks[k] == s.tasks[k] && periodic[EntryName(k)] == s.periodic[EntryName(k)];
      }
    }
  }

  /** Changing notifications in place, keeping every row's id and links,
      keeps the store consistent. */
  lemma SameLinksValid(s: Store, ns: seq<Notification>)
    requires Valid(s)
    requires |ns| == |s.notifications|
    requires forall i :: 0 <= i < |ns| ==>
               ns[i].id == s.notifications[i].id
               && ns[i].taskId == s.notifications[i].taskId
               && ns[i].logId == s.notifications[i].logId
    ensures Valid(s.(notifications := ns))
  {
    var r := s.(notifications := ns);
    forall i | 0 <= i < |ns|
      ensures NotificationLinked(r, ns[i])
    {
      assert NotificationLinked(s, s.notifications[i]);
    }
  }
}
