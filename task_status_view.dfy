/** The status board (src/components/Dashboard/TaskStatusView.js): the tasks are grouped
    into one column per status, the three board statuses first; dragging a card into
    another column moves it there and sets its status; the detail dialog deletes from, or
    edits within, a column. */
module TaskStatusView {
  import opened JsValues
  import opened Dicts
  import opened Lists
  import opened Tasks

  /** `taskColumns`: status to the tasks of that column. */
  type Columns = Dict<string, seq<Task>>

  /** `{ 'To Do': [], 'In Progress': [], 'Completed': [] }`. */
  function InitialColumns(): (c: Columns)
    ensures c.Valid() && c.keys == BoardStatuses
    ensures forall k :: k in c.entries ==> c.entries[k] == []
  {
    Dict(BoardStatuses, map[ToDo := [], InProgress := [], Completed := []])
  }

  /** `columns[k] || []`. */
  function ColumnOr(c: Columns, k: string): seq<Task> {
    if k in c.entries then c.entries[k] else []
  }

  /** The status of every task, in order. */
  function Statuses(tasks: seq<Task>): (r: seq<string>)
    ensures |r| == |tasks|
    ensures forall s :: s in r <==> exists t :: t in tasks && t.status == s
  {
    if tasks == [] then []
    else
      var p := tasks[..|tasks| - 1];
      assert forall t :: t in tasks <==> t in p || t == tasks[|tasks| - 1];
      Statuses(p) + [tasks[|tasks| - 1].status]
  }

  /** The tasks whose status is `s`, in order. */
  function WithStatus(tasks: seq<Task>, s: string): (r: seq<Task>)
    ensures |r| <= |tasks|
    ensures forall t :: t in r <==> t in tasks && t.status == s
  {
    if tasks == [] then []
    else
      var p := tasks[..|tasks| - 1];
      var last := tasks[|tasks| - 1];
      assert forall t :: t in tasks <==> t in p || t == last;
      if last.status == s then WithStatus(p, s) + [last] else WithStatus(p, s)
  }

  /** A status no task carries has an empty column. */
  lemma {:induction false} WithStatusAbsent(tasks: seq<Task>, s: string)
    requires s !in Statuses(tasks)
    ensures WithStatus(tasks, s) == []
  {
    if tasks != [] {
      WithStatusAbsent(tasks[..|tasks| - 1], s);
    }
  }

  /** What the grouping holds after the tasks `done`. */
  ghost predicate GroupedSoFar(c: Columns, done: seq<Task>) {
    && c.Valid()
    && c.keys == Dedup(BoardStatuses + Statuses(done))
    && forall k :: k in c.entries ==> c.entries[k] == WithStatus(done, k)
  }

  lemma GroupedEmpty()
    ensures GroupedSoFar(InitialColumns(), [])
  {
    assert BoardStatuses + Statuses([]) == BoardStatuses;
    DedupOfDistinct(BoardStatuses);
  }

  lemma {:induction false} GroupedKeysStep(c: Columns, tasks: seq<Task>)
    requires tasks != [] && GroupedSoFar(c, tasks[..|tasks| - 1])
    ensures var t := tasks[|tasks| - 1];
            c.Put(t.status, ColumnOr(c, t.status) + [t]).keys == Dedup(BoardStatuses + Statuses(tasks))
  {
    var p, t := tasks[..|tasks| - 1], tasks[|tasks| - 1];
    assert BoardStatuses + Statuses(tasks) == (BoardStatuses + Statuses(p)) + [t.status];
    DedupSnoc(BoardStatuses + Statuses(p), t.status);
  }

  lemma {:induction false} GroupedEntryStep(c: Columns, tasks: seq<Task>, k: string)
    requires tasks != [] && GroupedSoFar(c, tasks[..|tasks| - 1])
    requires k in c.Put(tasks[|tasks| - 1].status, ColumnOr(c, tasks[|tasks| - 1].status) + [tasks[|tasks| - 1]]).entries
    ensures var t := tasks[|tasks| - 1];
            c.Put(t.status, ColumnOr(c, t.status) + [t]).entries[k] == WithStatus(tasks, k)
  {
    var p, t := tasks[..|tasks| - 1], tasks[|tasks| - 1];
    if k == t.status && k !in c.entries {
      assert k !in BoardStatuses + Statuses(p);
      WithStatusAbsent(p, k);
    }
  }

  /** The `reduce` of the grouping effect: each task is appended to the column of its
      status, which is created when it is new. */
  function GroupByStatus(tasks: seq<Task>): (c: Columns)
    ensures GroupedSoFar(c, tasks)
  {
    if tasks == [] then GroupedEmpty(); InitialColumns()
    else
      var c := GroupByStatus(tasks[..|tasks| - 1]);
      var t := tasks[|tasks| - 1];
      var next := c.Put(t.status, ColumnOr(c, t.status) + [t]);
      GroupedKeysStep(c, tasks);
      forall k | k in next.entries ensures next.entries[k] == WithStatus(tasks, k) {
        GroupedEntryStep(c, tasks, k);
      }
      next
  }

  /** The three board columns exist after grouping, before any other status. */
  lemma BoardColumnsFirst(tasks: seq<Task>)
    ensures var c := GroupByStatus(tasks);
            |c.keys| >= 3 && c.keys[..3] == BoardStatuses
  {
    BoardPrefix(Statuses(tasks));
  }

  /** De-duplicating keeps a duplicate-free prefix in front. */
  lemma {:induction false} BoardPrefix(rest: seq<string>)
    ensures |Dedup(BoardStatuses + rest)| >= 3 && Dedup(BoardStatuses + rest)[..3] == BoardStatuses
  {
    if rest == [] {
      assert BoardStatuses + rest == BoardStatuses;
      DedupOfDistinct(BoardStatuses);
    } else {
      var p := rest[..|rest| - 1];
      BoardPrefix(p);
      assert BoardStatuses + rest == (BoardStatuses + p) + [rest[|rest| - 1]];
      DedupSnoc(BoardStatuses + p, rest[|rest| - 1]);
    }
  }

  /** Every card sits in the column named by its status. */
  ghost predicate Consistent(c: Columns) {
    && c.Valid()
    && forall k, t :: k in c.entries && t in c.entries[k] ==> t.status == k
  }

  lemma GroupedConsistent(tasks: seq<Task>)
    ensures Consistent(GroupByStatus(tasks))
  {
  }

  /** The number of cards on the board. */
  function TotalTasks(c: Columns): int {
    SumBy(c.keys, k => |ColumnOr(c, k)|)
  }

  /** Grouping drops no task and duplicates none: the columns hold `tasks.length` cards. */
  lemma {:induction false} GroupedCount(tasks: seq<Task>)
    ensures TotalTasks(GroupByStatus(tasks)) == |tasks|
  {
    var c := GroupByStatus(tasks);
    var f := k => |WithStatus(tasks, k)|;
    SumByCongruent(c.keys, k => |ColumnOr(c, k)|, f);
    StatusSizesSum(tasks);
  }

  lemma {:induction false} StatusSizesSum(tasks: seq<Task>)
    ensures SumBy(Dedup(BoardStatuses + Statuses(tasks)), k => |WithStatus(tasks, k)|) == |tasks|
  {
    if tasks == [] {
      assert BoardStatuses + Statuses(tasks) == BoardStatuses;
      DedupOfDistinct(BoardStatuses);
      SumByZero(BoardStatuses, k => |WithStatus(tasks, k)|);
    } else {
      StatusSizesSum(tasks[..|tasks| - 1]);
      StatusSizesStep(tasks);
    }
  }

  /** One more task adds one to exactly one column size. */
  lemma {:induction false} StatusSizesStep(tasks: seq<Task>)
    requires tasks != []
    ensures var p := tasks[..|tasks| - 1];
            SumBy(Dedup(BoardStatuses + Statuses(tasks)), k => |WithStatus(tasks, k)|)
            == SumBy(Dedup(BoardStatuses + Statuses(p)), k => |WithStatus(p, k)|) + 1
  {
    var p, t := tasks[..|tasks| - 1], tasks[|tasks| - 1];
    var before := Dedup(BoardStatuses + Statuses(p));
    assert BoardStatuses + Statuses(tasks) == (BoardStatuses + Statuses(p)) + [t.status];
    DedupSnoc(BoardStatuses + Statuses(p), t.status);
    if t.status in before {
      StatusSizesStepSeen(tasks, before);
    } else {
      StatusSizesStepNew(tasks, before);
    }
  }

  /** The last task's status already has a column: that column grows by one. */
  lemma StatusSizesStepSeen(tasks: seq<Task>, before: seq<string>)
    requires tasks != [] && before == Dedup(BoardStatuses + Statuses(tasks[..|tasks| - 1]))
    requires tasks[|tasks| - 1].status in before
    ensures var p := tasks[..|tasks| - 1];
            SumBy(before, k => |WithStatus(tasks, k)|) == SumBy(before, k => |WithStatus(p, k)|) + 1
  {
    var p, t := tasks[..|tasks| - 1], tasks[|tasks| - 1];
    forall k | k in before ensures |WithStatus(tasks, k)| == |WithStatus(p, k)| + (if k == t.status then 1 else 0) {
    }
    SumByBump(before, k => |WithStatus(p, k)|, k => |WithStatus(tasks, k)|, t.status, 1);
  }

  /** The last task's status is new: it opens a column of one, and the others keep their size. */
  lemma StatusSizesStepNew(tasks: seq<Task>, before: seq<string>)
    requires tasks != [] && before == Dedup(BoardStatuses + Statuses(tasks[..|tasks| - 1]))
    requires tasks[|tasks| - 1].status !in before
    ensures var p := tasks[..|tasks| - 1];
            SumBy(before + [tasks[|tasks| - 1].status], k => |WithStatus(tasks, k)|)
            == SumBy(before, k => |WithStatus(p, k)|) + 1
  {
    var p, t := tasks[..|tasks| - 1], tasks[|tasks| - 1];
    var f := k => |WithStatus(p, k)|;
    var g := k => |WithStatus(tasks, k)|;
    WithStatusAbsent(p, t.status);
    forall k | k in before ensures f(k) == g(k) {
    }
    SumByCongruent(before, f, g);
    assert (before + [t.status])[..|before|] == before;
  }

  lemma {:induction false} SumByZero<K>(keys: seq<K>, f: K -> int)
    requires forall k :: k in keys ==> f(k) == 0
    ensures SumBy(keys, f) == 0
  {
    if keys != [] {
      SumByZero(keys[..|keys| - 1], f);
    }
  }

  // ---- Dragging a card ----

  /** `source` / `destination` of the drop result. */
  datatype Location = Location(droppableId: string, index: nat)

  datatype DropResult = DropResult(source: Location, destination: Option<Location>)

  /** The drop moves a card: there is a destination in another column, both columns
      exist and the source index holds a card. Otherwise `handleDragEnd` returns early or
      throws before the state update. */
  predicate Moves(c: Columns, r: DropResult) {
    && r.destination.Some?
    && r.source.droppableId != r.destination.value.droppableId
    && r.source.droppableId in c.entries
    && r.destination.value.droppableId in c.entries
    && r.source.index < |c.entries[r.source.droppableId]|
  }

  /** `splice(i, 0, x)`: a start past the end inserts at the end. */
  function InsertAt<T>(s: seq<T>, i: nat, x: T): (r: seq<T>)
    ensures |r| == |s| + 1
    ensures var j := if i < |s| then i else |s|;
            r[..j] == s[..j] && r[j] == x && r[j + 1..] == s[j..]
  {
    var j := if i < |s| then i else |s|;
    s[..j] + [x] + s[j..]
  }

  /** The columns after a drop. */
  function Dragged(c: Columns, r: DropResult): (next: Columns)
    requires c.Valid()
    ensures !Moves(c, r) ==> next == c
    ensures Moves(c, r) ==>
              var src, dst := r.source.droppableId, r.destination.value.droppableId;
              var moved := c.entries[src][r.source.index];
              && next.Valid() && next.keys == c.keys
              && next.entries[src] == RemoveAt(c.entries[src], r.source.index)
              && next.entries[dst] == InsertAt(c.entries[dst], r.destination.value.index, moved.(status := dst))
              && forall k :: k in c.entries && k != src && k != dst ==> next.entries[k] == c.entries[k]
  {
    if !Moves(c, r) then c
    else
      var src, dst := r.source.droppableId, r.destination.value.droppableId;
      var moved := c.entries[src][r.source.index];
      c.Put(src, RemoveAt(c.entries[src], r.source.index))
       .Put(dst, InsertAt(c.entries[dst], r.destination.value.index, moved.(status := dst)))
  }

  /** `handleDragEnd`: copy the source column and splice the card out, set its status,
      copy the destination column and splice the card in. */
  method HandleDragEnd(c: Columns, r: DropResult) returns (next: Columns)
    requires c.Valid()
    ensures next == Dragged(c, r)
  {
    next := c;
    if r.destination.None? {
      return;
    }
    var src, dst := r.source.droppableId, r.destination.value.droppableId;
    if src == dst || src !in c.entries || r.source.index >= |c.entries[src]| {
      return;
    }
    var sourceTasks := c.entries[src];
    var movedTask := sourceTasks[r.source.index];
    sourceTasks := sourceTasks[..r.source.index] + sourceTasks[r.source.index + 1..];
    movedTask := movedTask.(status := dst);
    if dst !in c.entries {
      return;
    }
    var destinationTasks := c.entries[dst];
    var at := if r.destination.value.index < |destinationTasks| then r.destination.value.index else |destinationTasks|;
    destinationTasks := destinationTasks[..at] + [movedTask] + destinationTasks[at..];
    next := c.Put(src, sourceTasks).Put(dst, destinationTasks);
  }

  /** A drop keeps the number of cards on the board. */
  lemma DragKeepsCount(c: Columns, r: DropResult)
    requires c.Valid()
    ensures TotalTasks(Dragged(c, r)) == TotalTasks(c)
  {
    if Moves(c, r) {
      var next := Dragged(c, r);
      var src, dst := r.source.droppableId, r.destination.value.droppableId;
      var f := k => |ColumnOr(c, k)|;
      var h := k => |ColumnOr(c, k)| + (if k == src then -1 else 0);
      var g := k => |ColumnOr(next, k)|;
      SumByBump(c.keys, f, h, src, -1);
      SumByBump(c.keys, h, g, dst, 1);
    }
  }

  /** A drop keeps every card in the column of its status, and the moved card now has the
      destination's status. */
  lemma DragKeepsConsistent(c: Columns, r: DropResult)
    requires Consistent(c)
    ensures Consistent(Dragged(c, r))
    ensures Moves(c, r) ==>
              var d := r.destination.value;
              var at := if d.index < |c.entries[d.droppableId]| then d.index else |c.entries[d.droppableId]|;
              Dragged(c, r).entries[d.droppableId][at].status == d.droppableId
  {
    if Moves(c, r) {
      var next := Dragged(c, r);
      var src, dst := r.source.droppableId, r.destination.value.droppableId;
      forall k, t | k in next.entries && t in next.entries[k] ensures t.status == k {
        if k == src {
          assert t in c.entries[src];
        } else if k == dst {
          assert t in c.entries[dst] || t.status == dst;
        } else {
          assert t in c.entries[k];
        }
      }
    }
  }

  // ---- The detail dialog ----

  /** `onDelete(taskId)`: remove the task from the selected task's status column. The
      selected task is a card on the board, so its status always has a column; the branch
      without one, where the source's updater would throw, returns the board unchanged. */
  function DialogDelete(c: Columns, status: string, taskId: string): (next: Columns)
    requires c.Valid()
    ensures next.Valid() && next.keys == c.keys
    ensures status in c.entries ==> next.entries[status] == Without(c.entries[status], TaskId, taskId)
    ensures forall k :: k in c.entries && k != status ==> next.entries[k] == c.entries[k]
    ensures status !in c.entries ==> next == c
  {
    if status in c.entries then c.Put(status, Without(c.entries[status], TaskId, taskId)) else c
  }

  /** `onEdit(updatedTask)`: replace the task with that id within the column of the
      updated task's status. Column sizes never change. The branch for a status with no
      column stands for the source's updater throwing on `prev[updatedTask.status].map`;
      the model returns the board unchanged there. */
  function DialogEdit(c: Columns, updated: Task): (next: Columns)
    requires c.Valid()
    ensures next.Valid() && next.keys == c.keys
    ensures forall k :: k in c.entries ==> |next.entries[k]| == |c.entries[k]|
    ensures updated.status in c.entries ==>
              next.entries[updated.status] == ReplaceWhere(c.entries[updated.status], TaskId, updated.id, updated)
    ensures forall k :: k in c.entries && k != updated.status ==> next.entries[k] == c.entries[k]
  {
    if updated.status in c.entries
    then c.Put(updated.status, ReplaceWhere(c.entries[updated.status], TaskId, updated.id, updated))
    else c
  }

  /** Both dialog updates keep every card in the column of its status. */
  lemma DialogKeepsConsistent(c: Columns, status: string, taskId: string, updated: Task)
    requires Consistent(c)
    ensures Consistent(DialogDelete(c, status, taskId))
    ensures Consistent(DialogEdit(c, updated))
  {
    var e := DialogEdit(c, updated);
    forall k, t | k in e.entries && t in e.entries[k] ensures t.status == k {
      if k == updated.status {
        var col := c.entries[k];
        var j :| 0 <= j < |e.entries[k]| && e.entries[k][j] == t;
        assert col[j] in col;
      }
    }
  }

  /** The edit replaces only within the column of the new status: a card whose status the
      dialog changed is not found there, so the board stays as it was and the card keeps its
      old status in its old column. */
  lemma DialogStatusChangeKeepsBoard(c: Columns, updated: Task)
    requires c.Valid() && updated.status in c.entries
    requires forall t :: t in c.entries[updated.status] ==> t.id != updated.id
    ensures DialogEdit(c, updated) == c
  {
    var col := c.entries[updated.status];
    var replaced := ReplaceWhere(col, TaskId, updated.id, updated);
    forall i | 0 <= i < |col| ensures replaced[i] == col[i] {
      assert col[i] in col;
    }
    assert replaced == col;
    assert c.entries[updated.status := col] == c.entries;
  }

  /** Deleting lowers the card count by the number of cards with that id in the column. */
  lemma DialogDeleteCount(c: Columns, status: string, taskId: string)
    requires c.Valid() && status in c.entries
    ensures TotalTasks(DialogDelete(c, status, taskId)) == TotalTasks(c) - CountKey(c.entries[status], TaskId, taskId)
  {
    var next := DialogDelete(c, status, taskId);
    SumByBump(c.keys, k => |ColumnOr(c, k)|, k => |ColumnOr(next, k)|, status, -(CountKey(c.entries[status], TaskId, taskId) as int));
  }
}
