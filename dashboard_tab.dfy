/** The dashboard tab (src/components/Dashboard/DashboardTab.js): the overdue tasks and their
    alert, the monthly contribution pie, and the task list and counters kept in step with the
    task dialog's delete and edit. */
module DashboardTab {
  import opened JsValues
  import opened Lists
  import opened Tasks
  import opened TaskListView

  /** `tasks.filter(task => task.deadline && new Date(task.deadline) < now && task.status !== 'Completed')`. */
  function OverdueTasks(tasks: seq<Task>, now: int): (r: seq<Task>)
    ensures forall t :: t in r <==> t in tasks && IsOverdue(t, now)
    ensures multiset(r) <= multiset(tasks)
    ensures |r| <= |tasks|
  {
    if tasks == [] then []
    else
      var p := tasks[..|tasks| - 1];
      var t := tasks[|tasks| - 1];
      assert tasks == p + [t];
      var rest := OverdueTasks(p, now);
      if IsOverdue(t, now) then rest + [t] else rest
  }

  /** `filter` works task by task: the overdue tasks of a concatenation are those of each
      part, in order. */
  lemma {:induction false} OverdueAppend(a: seq<Task>, b: seq<Task>, now: int)
    ensures OverdueTasks(a + b, now) == OverdueTasks(a, now) + OverdueTasks(b, now)
  {
    if b == [] {
      assert a + b == a;
    } else {
      var pre := b[..|b| - 1];
      assert (a + b)[..|a + b| - 1] == a + pre;
      assert (a + b)[|a + b| - 1] == b[|b| - 1];
      OverdueAppend(a, pre, now);
    }
  }

  /** A completed task, or one without a deadline, is never listed as overdue. */
  lemma OverdueExcludes(tasks: seq<Task>, now: int, t: Task)
    requires t.status == Completed || t.deadline.None? || t.deadline.value >= now
    ensures t !in OverdueTasks(tasks, now)
  {
  }

  /** Moving the clock forward never takes a task off the overdue list. */
  lemma {:induction false} OverdueGrowsWithTime(tasks: seq<Task>, now: int, later: int)
    requires now <= later
    ensures multiset(OverdueTasks(tasks, now)) <= multiset(OverdueTasks(tasks, later))
  {
    if tasks != [] {
      OverdueGrowsWithTime(tasks[..|tasks| - 1], now, later);
    }
  }

  /** The alert above the task table: how many tasks are overdue and the plural suffix. */
  datatype OverdueAlert = NoAlert | Alert(count: nat, suffix: string)

  /** `overdueTasks.length > 0 && "You have {n} overdue task{n > 1 ? 's' : ''}!"`. */
  function OverdueAlertFor(tasks: seq<Task>, now: int): (a: OverdueAlert)
    ensures a.Alert? <==> |OverdueTasks(tasks, now)| > 0
    ensures a.Alert? ==> a.count == |OverdueTasks(tasks, now)| && (a.suffix == "s" <==> a.count > 1)
    ensures a.Alert? ==> a.count <= |tasks|
  {
    var n := |OverdueTasks(tasks, now)|;
    if n > 0 then Alert(n, if n > 1 then "s" else "") else NoAlert
  }

  /** One month of the investment details the server sends; only the month, the year and
      the actual contribution reach the pie. */
  datatype InvestmentDetail = InvestmentDetail(month: int, year: int, expectedContribution: int,
                                               actualContribution: int, disparity: int, status: string)

  /** The label `${month}-${year}`, kept as the pair it is printed from. */
  datatype MonthYear = MonthYear(month: int, year: int)

  /** `rgba(r, g, b, 0.6)`. */
  datatype Rgb = Rgb(red: int, green: int, blue: int)

  /** The colour of slice `idx`. */
  function SliceColor(idx: nat): (c: Rgb)
    ensures 0 <= c.red < 255 && 0 <= c.green < 255 && 0 <= c.blue < 255
  {
    Rgb((idx * 50) % 255, (idx * 80) % 255, (idx * 110) % 255)
  }

  datatype PieData = PieData(labels: seq<MonthYear>, data: seq<int>, colors: seq<Rgb>)

  /** `pieData`: three `map`s over the investment details. */
  function PieDataFor(details: seq<InvestmentDetail>): (p: PieData)
    ensures |p.labels| == |details| && |p.data| == |details| && |p.colors| == |details|
    ensures forall i :: 0 <= i < |details| ==>
              p.labels[i] == MonthYear(details[i].month, details[i].year)
              && p.data[i] == details[i].actualContribution
              && p.colors[i] == SliceColor(i)
  {
    PieData(
      seq(|details|, i requires 0 <= i < |details| => MonthYear(details[i].month, details[i].year)),
      seq(|details|, i requires 0 <= i < |details| => details[i].actualContribution),
      seq(|details|, i requires 0 <= i < |details| => SliceColor(i)))
  }

  /** The slice colours repeat with period 51: the first slice is black and so is the 52nd. */
  lemma SliceColorsRepeat(idx: nat)
    ensures SliceColor(idx + 51) == SliceColor(idx)
    ensures SliceColor(0) == Rgb(0, 0, 0)
  {
    ModShift(idx * 50, 10);
    ModShift(idx * 80, 16);
    ModShift(idx * 110, 22);
  }

  lemma ModShift(a: int, k: int)
    ensures (a + 255 * k) % 255 == a % 255
  {
    var q := a / 255;
    assert a + 255 * k == 255 * (q + k) + a % 255;
  }

  datatype TaskStats = TaskStats(totalTasks: int, totalOverdue: int, totalInProgress: int, totalCompleted: int)

  /** The parts of the dashboard data the dialog callbacks update. */
  datatype DashboardData = DashboardData(tasks: seq<Task>, taskStats: TaskStats)

  /** The dialog's `onDelete`: the task id is filtered out and `totalTasks` drops by one,
      whatever the filter removed. */
  function OnDelete(d: DashboardData, taskId: string): (r: DashboardData)
    ensures r.tasks == DeleteTask(d.tasks, taskId)
    ensures r.taskStats == d.taskStats.(totalTasks := d.taskStats.totalTasks - 1)
  {
    DashboardData(DeleteTask(d.tasks, taskId), d.taskStats.(totalTasks := d.taskStats.totalTasks - 1))
  }

  /** The counter stays equal to the list length when exactly one task carries the id. */
  lemma DeleteKeepsCounterInStep(d: DashboardData, taskId: string)
    requires d.taskStats.totalTasks == |d.tasks|
    requires CountKey(d.tasks, TaskId, taskId) == 1
    ensures OnDelete(d, taskId).taskStats.totalTasks == |OnDelete(d, taskId).tasks|
  {
  }

  /** Deleting an id no task carries still lowers the counter, so it drifts from the list. */
  lemma DeleteAbsentDrifts(d: DashboardData, taskId: string)
    requires forall i :: 0 <= i < |d.tasks| ==> d.tasks[i].id != taskId
    ensures OnDelete(d, taskId).tasks == d.tasks
    ensures OnDelete(d, taskId).taskStats.totalTasks == d.taskStats.totalTasks - 1
  {
    WithoutNoMatch(d.tasks, TaskId, taskId);
  }

  /** The dialog's `onEdit`: the task with the updated id is replaced; the counters are
      not touched even when the status changed. */
  function OnEdit(d: DashboardData, updated: Task): (r: DashboardData)
    ensures r.tasks == EditTask(d.tasks, updated) && |r.tasks| == |d.tasks|
    ensures r.taskStats == d.taskStats
  {
    DashboardData(EditTask(d.tasks, updated), d.taskStats)
  }

  /** Completing a task through the dialog takes it off the overdue list, while the overdue
      counter stays as it was. */
  lemma EditToCompletedClearsOverdue(d: DashboardData, updated: Task, now: int)
    requires updated.status == Completed
    ensures updated !in OverdueTasks(OnEdit(d, updated).tasks, now)
    ensures OnEdit(d, updated).taskStats.totalOverdue == d.taskStats.totalOverdue
  {
  }
}
