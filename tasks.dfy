/** The task record shared by the task board views, the three statuses the board draws,
    and the overdue rule every view applies to a task. */
module Tasks {
  import opened JsValues

  /** A task as the views read it. `deadline` is a timestamp; None stands for an absent
      `deadline` field, which `new Date(undefined)` turns into an invalid date. */
  datatype Task = Task(
    id: string,
    title: string,
    description: string,
    status: string,
    deadline: Option<int>,
    assignee: Option<string>)

  const ToDo: string := "To Do"
  const InProgress: string := "In Progress"
  const Completed: string := "Completed"

  /** The three columns of the board, in the order they are drawn. */
  const BoardStatuses: seq<string> := [ToDo, InProgress, Completed]

  /** `deadline < now && status !== 'Completed'`; an invalid or missing date compares false. */
  predicate IsOverdue(t: Task, now: int): (b: bool)
    ensures t.status == Completed ==> !b
    ensures t.deadline.None? ==> !b
    ensures b ==> t.deadline.value < now
  {
    t.deadline.Some? && t.deadline.value < now && t.status != Completed
  }

  function TaskId(t: Task): string {
    t.id
  }
}
