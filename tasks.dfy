/** The task record the board works on, and the two per-task helpers of the
    board: the overdue test and the priority badge. Dates are integer
    millisecond timestamps already in local time. */
module Tasks {
  import opened Wrappers
  import opened Strings

  const ToDo: string := "To Do"
  const InProgress: string := "In Progress"
  const Done: string := "Done"

  /** A task as the server returns it. `status` and `priority` are the raw
      strings, so a task whose status is none of the three can be
      represented. A date that is absent, null or empty is `None`. */
  datatype Task = Task(
    id: string,
    title: string,
    description: string,
    status: string,
    priority: string,
    dueDate: Option<int>,
    createdAt: Option<int>,
    updatedAt: Option<int>)

  predicate IsValidStatus(s: string) {
    s == ToDo || s == InProgress || s == Done
  }

  const MsPerDay: int := 86400000

  /** The day a local timestamp falls on; `setHours(0, 0, 0, 0)` keeps only this. */
  function Day(t: int): int {
    t / MsPerDay
  }

  /** The instant of local midnight that starts the day of `t`. */
  function StartOfDay(t: int): (m: int)
    ensures m <= t < m + MsPerDay
  {
    Day(t) * MsPerDay
  }

  /** `isOverdue` at time `now`: no due date or a finished task is never
      overdue; otherwise the due day must be strictly before today, which is
      the same as the due instant lying before today's local midnight. */
  predicate IsOverdue(task: Task, now: int)
    ensures IsOverdue(task, now) <==>
      task.dueDate.Some? && task.status != Done && task.dueDate.value < StartOfDay(now)
  {
    if task.dueDate.None? then false
    else if task.status == Done then false
    else
      DayBeforeIsBeforeMidnight(task.dueDate.value, now);
      Day(task.dueDate.value) < Day(now)
  }

  /** An instant's day is before today exactly when the instant is before
      today's midnight. */
  lemma DayBeforeIsBeforeMidnight(d: int, now: int)
    ensures Day(d) < Day(now) <==> d < StartOfDay(now)
  {
    assert StartOfDay(d) <= d < StartOfDay(d) + MsPerDay;
    if Day(d) < Day(now) {
      assert (Day(d) + 1) * MsPerDay <= Day(now) * MsPerDay;
    } else {
      assert Day(now) * MsPerDay <= Day(d) * MsPerDay;
    }
  }

  /** Two instants on the same day give the same answer. */
  lemma OverdueIgnoresTimeOfDay(task: Task, now1: int, now2: int)
    requires Day(now1) == Day(now2)
    ensures IsOverdue(task, now1) == IsOverdue(task, now2)
  {
  }

  const LowBadge: string := "badge badge-priority-low"
  const MediumBadge: string := "badge badge-priority-medium"
  const HighBadge: string := "badge badge-priority-high"

  /** `priorityBadgeClass`: "low" and "high" in any letter case get their
      own badge; everything else, the empty priority included, gets the
      medium badge. */
  function PriorityBadgeClass(priority: string): (r: string)
    ensures r == LowBadge <==> ToLower(priority) == "low"
    ensures r == HighBadge <==> ToLower(priority) == "high"
    ensures r == MediumBadge <==> ToLower(priority) != "low" && ToLower(priority) != "high"
  {
    var p := ToLower(priority);
    if p == "low" then LowBadge
    else if p == "high" then HighBadge
    else MediumBadge
  }

  /** The badge does not depend on letter case. */
  lemma BadgeIgnoresCase(priority: string)
    ensures PriorityBadgeClass(ToLower(priority)) == PriorityBadgeClass(priority)
  {
    ToLowerIdempotent(priority);
  }
}
