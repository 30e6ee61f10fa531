/** The task list (src/components/Dashboard/TaskListView.js): the tasks are filtered by the
    overdue switch, the status menu and the search box, sorted by deadline and cut into
    pages; a small pager steps through the pages. */
module TaskListView {
  import opened JsValues
  import opened Lists
  import opened Tasks

  // ---- Filtering ----

  /** The inputs of the filter: the overdue switch, the status menu ('' for all), the
      search box and the current time. */
  datatype ListFilter = ListFilter(showOnlyOverdue: bool, status: string, search: string, now: int)

  /** The search term occurs in the title or the description, ignoring case. */
  predicate MatchesSearch(t: Task, search: string) {
    Includes(Lower(t.title), Lower(search)) || Includes(Lower(t.description), Lower(search))
  }

  /** The predicate of `filteredTasks`. */
  predicate Keeps(f: ListFilter, t: Task): (b: bool)
    ensures b && f.showOnlyOverdue ==> IsOverdue(t, f.now)
    ensures b && f.status != "" ==> t.status == f.status
    ensures !f.showOnlyOverdue && f.status == "" && f.search == "" ==> b
  {
    IncludesEmpty(Lower(t.title));
    (!f.showOnlyOverdue || IsOverdue(t, f.now))
    && (f.status == "" || t.status == f.status)
    && MatchesSearch(t, f.search)
  }

  /** `tasks.filter(...)`. */
  function FilterTasks(tasks: seq<Task>, f: ListFilter): (r: seq<Task>)
    ensures forall t :: t in r <==> t in tasks && Keeps(f, t)
    ensures multiset(r) <= multiset(tasks)
  {
    if tasks == [] then []
    else
      var rest := FilterTasks(tasks[1..], f);
      assert tasks == [tasks[0]] + tasks[1..];
      if Keeps(f, tasks[0]) then [tasks[0]] + rest else rest
  }

  /** `filter` works task by task: filtering a concatenation filters each part and keeps
      them in order, so the kept tasks keep their order and their repeats. */
  lemma {:induction false} FilterTasksAppend(a: seq<Task>, b: seq<Task>, f: ListFilter)
    ensures FilterTasks(a + b, f) == FilterTasks(a, f) + FilterTasks(b, f)
  {
    if a == [] {
      assert a + b == b;
    } else {
      assert (a + b)[0] == a[0];
      assert (a + b)[1..] == a[1..] + b;
      FilterTasksAppend(a[1..], b, f);
    }
  }

  /** Every string contains the empty string. */
  lemma IncludesEmpty(s: string)
    ensures Includes(s, "")
  {
    IncludesAt(s, "", 0);
  }

  /** With the switch off, no status chosen and an empty search box, nothing is filtered out. */
  lemma FilterKeepsAllByDefault(tasks: seq<Task>, now: int)
    ensures FilterTasks(tasks, ListFilter(false, "", "", now)) == tasks
  {
    if tasks != [] {
      IncludesEmpty(Lower(tasks[0].title));
      FilterKeepsAllByDefault(tasks[1..], now);
    }
  }

  // ---- Sorting ----

  /** `new Date(a.deadline) - new Date(b.deadline) < 0`. A missing deadline gives NaN,
      which `sort` reads as "equal". */
  predicate Before(a: Task, b: Task) {
    a.deadline.Some? && b.deadline.Some? && a.deadline.value < b.deadline.value
  }

  predicate AllDated(s: seq<Task>) {
    forall i :: 0 <= i < |s| ==> s[i].deadline.Some?
  }

  predicate SortedByDeadline(s: seq<Task>)
    requires AllDated(s)
  {
    forall i, j :: 0 <= i < j < |s| ==> s[i].deadline.value <= s[j].deadline.value
  }

  /** Places `x` before the first element it comes strictly before, so equal deadlines
      keep their order. */
  function Insert(x: Task, s: seq<Task>): (r: seq<Task>)
    ensures multiset(r) == multiset(s) + multiset{x}
    ensures |r| == |s| + 1
  {
    if s == [] then [x]
    else if Before(x, s[0]) then [x] + s
    else
      assert s == [s[0]] + s[1..];
      [s[0]] + Insert(x, s[1..])
  }

  /** Inserting a dated task into a list sorted by deadline keeps it sorted. */
  lemma {:induction false} InsertSorted(x: Task, s: seq<Task>)
    requires AllDated(s) && x.deadline.Some? && SortedByDeadline(s)
    ensures AllDated(Insert(x, s)) && SortedByDeadline(Insert(x, s))
  {
    if s != [] && !Before(x, s[0]) {
      var rest := Insert(x, s[1..]);
      InsertSorted(x, s[1..]);
      HeadBelowRest(x, s, rest);
      ConsSorted(s[0], rest);
    }
  }

  lemma ConsSorted(h: Task, s: seq<Task>)
    requires h.deadline.Some? && AllDated(s) && SortedByDeadline(s)
    requires forall k :: 0 <= k < |s| ==> h.deadline.value <= s[k].deadline.value
    ensures AllDated([h] + s) && SortedByDeadline([h] + s)
  {
    var r := [h] + s;
    forall i, j | 0 <= i < j < |r| ensures r[i].deadline.value <= r[j].deadline.value {
      assert r[j] == s[j - 1];
      if i > 0 {
        assert r[i] == s[i - 1];
      }
    }
  }

  /** When `x` does not come before the head of a sorted `s`, the head is at most every
      element of `x` inserted into the tail. */
  lemma HeadBelowRest(x: Task, s: seq<Task>, rest: seq<Task>)
    requires s != [] && !Before(x, s[0]) && AllDated(s) && x.deadline.Some? && SortedByDeadline(s)
    requires multiset(rest) == multiset(s[1..]) + multiset{x}
    ensures forall k :: 0 <= k < |rest| ==> rest[k].deadline.Some? && s[0].deadline.value <= rest[k].deadline.value
  {
    forall k | 0 <= k < |rest| ensures rest[k].deadline.Some? && s[0].deadline.value <= rest[k].deadline.value {
      assert rest[k] in multiset(rest);
      if rest[k] != x {
        assert rest[k] in multiset(s[1..]);
        var m :| 0 <= m < |s[1..]| && s[1..][m] == rest[k];
        assert s[m + 1] == rest[k];
      }
    }
  }

  /** `.sort((a, b) => new Date(a.deadline) - new Date(b.deadline))`, as an insertion sort
      of each element in turn: always a permutation. */
  function SortByDeadline(s: seq<Task>): (r: seq<Task>)
    ensures multiset(r) == multiset(s)
  {
    if s == [] then []
    else
      var p := s[..|s| - 1];
      assert s == p + [s[|s| - 1]];
      Insert(s[|s| - 1], SortByDeadline(p))
  }

  /** When every task has a deadline, the sort orders them by deadline. */
  lemma {:induction false} SortSorted(s: seq<Task>)
    requires AllDated(s)
    ensures AllDated(SortByDeadline(s)) && SortedByDeadline(SortByDeadline(s))
  {
    if s != [] {
      var p := s[..|s| - 1];
      assert AllDated(p);
      SortSorted(p);
      InsertSorted(s[|s| - 1], SortByDeadline(p));
    }
  }

  /** `filteredTasks`. */
  function FilteredTasks(tasks: seq<Task>, f: ListFilter): (r: seq<Task>)
    ensures forall t :: t in r <==> t in tasks && Keeps(f, t)
    ensures multiset(r) <= multiset(tasks)
    ensures AllDated(tasks) ==> AllDated(r) && SortedByDeadline(r)
  {
    var kept := FilterTasks(tasks, f);
    var r := SortByDeadline(kept);
    SameMembers(r, kept);
    DatedSubset(tasks, kept);
    if AllDated(kept) then SortSorted(kept); r else r
  }

  lemma SameMembers(a: seq<Task>, b: seq<Task>)
    requires multiset(a) == multiset(b)
    ensures forall t :: t in a <==> t in b
  {
    forall t ensures t in a <==> t in b {
      assert t in a <==> t in multiset(a);
      assert t in b <==> t in multiset(b);
    }
  }

  lemma DatedSubset(tasks: seq<Task>, kept: seq<Task>)
    requires forall t :: t in kept ==> t in tasks
    ensures AllDated(tasks) ==> AllDated(kept)
  {
    if AllDated(tasks) {
      forall i | 0 <= i < |kept| ensures kept[i].deadline.Some? {
        assert kept[i] in kept;
        var j :| 0 <= j < |tasks| && tasks[j] == kept[i];
      }
    }
  }

  // ---- Pages ----

  /** The "Tasks Per Page" menu. */
  datatype PageSize = Five | Ten | Twenty

  function Size(p: PageSize): (n: nat)
    ensures n > 0
  {
    match p
    case Five => 5
    case Ten => 10
    case Twenty => 20
  }

  /** `Math.ceil(n / perPage)`. */
  function TotalPages(n: nat, perPage: nat): (r: nat)
    requires perPage > 0
    ensures n <= r * perPage
    ensures r == 0 || (r - 1) * perPage < n
  {
    var r := (n + perPage - 1) / perPage;
    DivBounds(n + perPage - 1, perPage);
    r
  }

  lemma DivBounds(a: nat, b: nat)
    requires b > 0
    ensures (a / b) * b <= a < (a / b) * b + b
  {
  }

  function Min(a: int, b: int): int {
    if a < b then a else b
  }

  /** `slice((page - 1) * perPage, page * perPage)`; slice clamps both ends to the length. */
  function Paginate(s: seq<Task>, page: nat, perPage: nat): (r: seq<Task>)
    requires page >= 1
    ensures |r| <= perPage
    ensures r == s[Min((page - 1) * perPage, |s|)..Min(page * perPage, |s|)]
  {
    assert page * perPage == (page - 1) * perPage + perPage;
    s[Min((page - 1) * perPage, |s|)..Min(page * perPage, |s|)]
  }

  /** Pages 1 to `k`, one after the other. */
  function PagesUpTo(s: seq<Task>, perPage: nat, k: nat): seq<Task> {
    if k == 0 then [] else PagesUpTo(s, perPage, k - 1) + Paginate(s, k, perPage)
  }

  lemma {:induction false} PagesUpToPrefix(s: seq<Task>, perPage: nat, k: nat)
    ensures PagesUpTo(s, perPage, k) == s[..Min(k * perPage, |s|)]
  {
    if k > 0 {
      PagesUpToPrefix(s, perPage, k - 1);
      assert k * perPage == (k - 1) * perPage + perPage;
      var a, b := Min((k - 1) * perPage, |s|), Min(k * perPage, |s|);
      assert s[..a] + s[a..b] == s[..b];
    }
  }

  /** The pages 1..totalPages, put back together, are the filtered list. */
  lemma PagesCoverList(s: seq<Task>, perPage: nat)
    requires perPage > 0
    ensures PagesUpTo(s, perPage, TotalPages(|s|, perPage)) == s
  {
    PagesUpToPrefix(s, perPage, TotalPages(|s|, perPage));
  }

  /** A page past the last one is empty. */
  lemma PagePastEnd(s: seq<Task>, page: nat, perPage: nat)
    requires perPage > 0 && page > TotalPages(|s|, perPage)
    ensures Paginate(s, page, perPage) == []
  {
    var n := TotalPages(|s|, perPage);
    assert (page - 1) * perPage >= n * perPage by {
      assert page - 1 >= n;
      MulMono(n, page - 1, perPage);
    }
  }

  lemma MulMono(a: nat, b: nat, c: nat)
    requires a <= b
    ensures a * c <= b * c
  {
  }

  // ---- The view's counters ----

  /** The view's own state: the page shown, the page size and the two filter inputs. */
  class TaskListPager {
    var currentPage: int
    var tasksPerPage: PageSize
    var searchTerm: string
    var filterStatus: string

    ghost predicate Valid()
      reads this
    {
      currentPage >= 1
    }

    constructor()
      ensures Valid()
      ensures currentPage == 1 && tasksPerPage == Five && searchTerm == "" && filterStatus == ""
    {
      currentPage := 1;
      tasksPerPage := Five;
      searchTerm := "";
      filterStatus := "";
    }

    /** The number of pages of the filtered list. */
    function PageCount(tasks: seq<Task>, showOnlyOverdue: bool, now: int): nat
      reads this
    {
      TotalPages(|FilteredTasks(tasks, ListFilter(showOnlyOverdue, filterStatus, searchTerm, now))|, Size(tasksPerPage))
    }

    /** `paginatedTasks`: the current page of the filtered list. */
    function Visible(tasks: seq<Task>, showOnlyOverdue: bool, now: int): (r: seq<Task>)
      reads this
      requires Valid()
      ensures |r| <= Size(tasksPerPage)
      ensures forall t :: t in r ==> t in tasks && Keeps(ListFilter(showOnlyOverdue, filterStatus, searchTerm, now), t)
    {
      var f := FilteredTasks(tasks, ListFilter(showOnlyOverdue, filterStatus, searchTerm, now));
      var r := Paginate(f, currentPage, Size(tasksPerPage));
      assert forall t :: t in r ==> t in f;
      r
    }

    /** `handleNextPage`: one page on, unless this is the last page of the filtered list. */
    method NextPage(tasks: seq<Task>, showOnlyOverdue: bool, now: int)
      requires Valid()
      modifies this
      ensures Valid()
      ensures var pages := old(PageCount(tasks, showOnlyOverdue, now));
              currentPage == if old(currentPage) < pages then old(currentPage) + 1 else old(currentPage)
      ensures old(currentPage) <= old(PageCount(tasks, showOnlyOverdue, now)) ==>
                currentPage <= PageCount(tasks, showOnlyOverdue, now)
      ensures tasksPerPage == old(tasksPerPage) && searchTerm == old(searchTerm) && filterStatus == old(filterStatus)
    {
      var totalPages := PageCount(tasks, showOnlyOverdue, now);
      if currentPage < totalPages {
        currentPage := currentPage + 1;
      }
    }

    /** `handlePreviousPage`: one page back, never below the first. */
    method PreviousPage()
      requires Valid()
      modifies this
      ensures Valid()
      ensures currentPage == if old(currentPage) > 1 then old(currentPage) - 1 else old(currentPage)
      ensures tasksPerPage == old(tasksPerPage) && searchTerm == old(searchTerm) && filterStatus == old(filterStatus)
    {
      if currentPage > 1 {
        currentPage := currentPage - 1;
      }
    }

    /** The "Tasks Per Page" menu: a new page size, and back to the first page. */
    method SetTasksPerPage(size: PageSize)
      modifies this
      ensures Valid()
      ensures currentPage == 1 && tasksPerPage == size
      ensures searchTerm == old(searchTerm) && filterStatus == old(filterStatus)
    {
      tasksPerPage := size;
      currentPage := 1;
    }

    /** The search box; the page is not reset. */
    method SetSearchTerm(term: string)
      requires Valid()
      modifies this
      ensures Valid()
      ensures searchTerm == term
      ensures currentPage == old(currentPage) && tasksPerPage == old(tasksPerPage) && filterStatus == old(filterStatus)
    {
      searchTerm := term;
    }

    /** The status menu; the page is not reset. */
    method SetFilterStatus(status: string)
      requires Valid()
      modifies this
      ensures Valid()
      ensures filterStatus == status
      ensures currentPage == old(currentPage) && tasksPerPage == old(tasksPerPage) && searchTerm == old(searchTerm)
    {
      filterStatus := status;
    }
  }

  // ---- Updates handed to the parent ----

  /** `handleDeleteTask`: every task with that id goes, the rest keep their order. */
  function DeleteTask(tasks: seq<Task>, id: string): (r: seq<Task>)
    ensures forall t :: t in r <==> t in tasks && t.id != id
    ensures |r| == |tasks| - CountKey(tasks, TaskId, id)
  {
    Without(tasks, TaskId, id)
  }

  /** Deleting from a list split in two deletes from each half, so the order is kept. */
  lemma DeleteTaskKeepsOrder(a: seq<Task>, b: seq<Task>, id: string)
    ensures DeleteTask(a + b, id) == DeleteTask(a, id) + DeleteTask(b, id)
  {
    WithoutAppend(a, b, TaskId, id);
  }

  /** `handleEditTask`: the tasks with the updated task's id are replaced by it. */
  function EditTask(tasks: seq<Task>, updated: Task): (r: seq<Task>)
    ensures |r| == |tasks|
    ensures forall i :: 0 <= i < |tasks| ==> r[i] == if tasks[i].id == updated.id then updated else tasks[i]
  {
    ReplaceWhere(tasks, TaskId, updated.id, updated)
  }

  /** Editing leaves the other tasks, and how many carry the id, as they were. */
  lemma EditTaskKeepsOthers(tasks: seq<Task>, updated: Task)
    ensures DeleteTask(EditTask(tasks, updated), updated.id) == DeleteTask(tasks, updated.id)
    ensures CountKey(EditTask(tasks, updated), TaskId, updated.id) == CountKey(tasks, TaskId, updated.id)
  {
    ReplaceKeepsOthers(tasks, TaskId, updated.id, updated);
  }
}
