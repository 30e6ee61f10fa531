/** The calendar view (src/components/Dashboard/TaskCalendarView.js): one event per task on
    its deadline, kept in step with the task dialog's delete and edit, coloured by status and
    marked when the task is overdue. */
module TaskCalendarView {
  import opened JsValues
  import opened Lists
  import opened Tasks
  import opened TaskListView

  /** `{ title, start, end, task }`; the dates are the task's deadline (`None` is the invalid
      date `new Date(undefined)` gives). */
  datatype CalendarEvent = CalendarEvent(title: string, start: Option<int>, end: Option<int>, task: Task)

  function EventTaskId(e: CalendarEvent): string {
    e.task.id
  }

  function EventFor(t: Task): CalendarEvent {
    CalendarEvent(t.title, t.deadline, t.deadline, t)
  }

  /** The effect on `tasks`: `tasks.map(task => ({ title, start, end, task }))`. */
  function TaskEvents(tasks: seq<Task>): (r: seq<CalendarEvent>)
    ensures |r| == |tasks|
    ensures forall i :: 0 <= i < |tasks| ==>
              r[i].task == tasks[i] && r[i].title == tasks[i].title
              && r[i].start == tasks[i].deadline && r[i].end == tasks[i].deadline
  {
    if tasks == [] then [] else [EventFor(tasks[0])] + TaskEvents(tasks[1..])
  }

  /** The dialog's `onDelete`: the events whose task has that id go. */
  function DeleteEvents(events: seq<CalendarEvent>, taskId: string): (r: seq<CalendarEvent>)
    ensures forall e :: e in r <==> e in events && e.task.id != taskId
    ensures |r| == |events| - CountKey(events, EventTaskId, taskId)
  {
    Without(events, EventTaskId, taskId)
  }

  /** Deleting from the events is deleting from the task list and mapping again. */
  lemma {:induction false} DeleteCommutesWithEvents(tasks: seq<Task>, taskId: string)
    ensures DeleteEvents(TaskEvents(tasks), taskId) == TaskEvents(DeleteTask(tasks, taskId))
  {
    if tasks != [] {
      DeleteCommutesWithEvents(tasks[1..], taskId);
      var ev := TaskEvents(tasks);
      assert ev[0] == EventFor(tasks[0]) && ev[1..] == TaskEvents(tasks[1..]);
    }
  }

  /** The dialog's `onEdit`: `{ ...event, task: updatedTask }` for the events of that id. */
  function EditEvents(events: seq<CalendarEvent>, updated: Task): (r: seq<CalendarEvent>)
    ensures |r| == |events|
    ensures forall i :: 0 <= i < |events| ==>
              r[i] == if events[i].task.id == updated.id then events[i].(task := updated) else events[i]
  {
    seq(|events|, i requires 0 <= i < |events| =>
      if events[i].task.id == updated.id then events[i].(task := updated) else events[i])
  }

  /** After an edit the events carry the edited tasks, as mapping the edited list would give,
      but keep their old title and dates until the tasks are mapped again. */
  lemma EditKeepsEventFields(tasks: seq<Task>, updated: Task, i: nat)
    requires i < |tasks|
    ensures var e := EditEvents(TaskEvents(tasks), updated)[i];
            e.task == TaskEvents(EditTask(tasks, updated))[i].task
            && e.title == tasks[i].title && e.start == tasks[i].deadline && e.end == tasks[i].deadline
  {
  }

  /** The warning icon: the deadline has passed and the task is not completed. */
  predicate ShowsOverdueMarker(e: CalendarEvent, now: int) {
    IsOverdue(e.task, now)
  }

  const FallbackColor := "#e0e0e0"

  /** `statusColors[status] || '#e0e0e0'`. */
  function StatusColor(status: string): (c: string)
    ensures status == ToDo ==> c == "#ffecb3"
    ensures status == InProgress ==> c == "#c8e6c9"
    ensures status == Completed ==> c == "#bbdefb"
    ensures c == FallbackColor <==> status !in BoardStatuses
  {
    if status == ToDo then "#ffecb3"
    else if status == InProgress then "#c8e6c9"
    else if status == Completed then "#bbdefb"
    else FallbackColor
  }

  /** A completed task's event never carries the marker, whatever its deadline. */
  lemma CompletedHasNoMarker(t: Task, now: int)
    requires t.status == Completed
    ensures !ShowsOverdueMarker(EventFor(t), now)
    ensures StatusColor(EventFor(t).task.status) == "#bbdefb"
  {
  }
}
