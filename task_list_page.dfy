/** The task page (src/components/Dashboard/TaskListPage.js): the filter record shared by the
    list, board and calendar views, the request it turns into, the overdue-only switch and
    the tab that decides whether the filter bar is drawn. */
module TaskListPage {
  import opened JsValues
  import opened CategoryForm

  datatype DateRange = DateRange(start: string, end: string)

  datatype TaskFilters = TaskFilters(
    status: string,
    assignedTo: string,
    category: string,
    subcategory: string,
    dueDateRange: DateRange)

  const InitialTaskFilters := TaskFilters("", "", "", "", DateRange("", ""))

  /** The filters the `Select`s set through `handleFilterChange`. */
  datatype FilterField = StatusFilter | AssignedToFilter | CategoryFilter | SubcategoryFilter

  function FilterValue(f: TaskFilters, field: FilterField): string {
    match field
    case StatusFilter => f.status
    case AssignedToFilter => f.assignedTo
    case CategoryFilter => f.category
    case SubcategoryFilter => f.subcategory
  }

  /** The page's state besides the fetched lists. `view` is the selected tab. */
  datatype PageState = PageState(filters: TaskFilters, subcategories: seq<string>, showOnlyOverdue: bool, view: int)

  const InitialPageState := PageState(InitialTaskFilters, [], false, 0)

  /** `handleFilterChange`: `{ ...prev, [name]: value }`. */
  function HandleFilterChange(s: PageState, field: FilterField, value: string): (r: PageState)
    ensures FilterValue(r.filters, field) == value
    ensures forall other :: other != field ==> FilterValue(r.filters, other) == FilterValue(s.filters, other)
    ensures r.filters.dueDateRange == s.filters.dueDateRange
    ensures r.subcategories == s.subcategories && r.showOnlyOverdue == s.showOnlyOverdue && r.view == s.view
  {
    var f := s.filters;
    var g := match field
      case StatusFilter => f.(status := value)
      case AssignedToFilter => f.(assignedTo := value)
      case CategoryFilter => f.(category := value)
      case SubcategoryFilter => f.(subcategory := value);
    s.(filters := g)
  }

  /** `categories.find(cat => cat._id === categoryId)`: the first category with that id. */
  function FindById(cats: seq<TaskCategory>, id: string): (r: Option<nat>)
    ensures r.Some? ==> r.value < |cats| && cats[r.value].id == id
                        && forall j :: 0 <= j < r.value ==> cats[j].id != id
    ensures r.None? ==> forall j :: 0 <= j < |cats| ==> cats[j].id != id
  {
    if cats == [] then None
    else if cats[0].id == id then Some(0)
    else
      var rest := FindById(cats[1..], id);
      if rest.Some? then Some(rest.value + 1) else None
  }

  /** `handleCategoryChange`: the category id is set, the subcategory cleared, and the
      offered subcategories are those of the category with that id, or none. */
  function HandleCategoryChange(s: PageState, categories: seq<TaskCategory>, categoryId: string): (r: PageState)
    ensures r.filters == s.filters.(category := categoryId, subcategory := "")
    ensures r.showOnlyOverdue == s.showOnlyOverdue && r.view == s.view
    ensures (exists i :: 0 <= i < |categories| && categories[i].id == categoryId) ==>
              exists i :: 0 <= i < |categories| && categories[i].id == categoryId
                          && r.subcategories == categories[i].subcategories
    ensures (forall i :: 0 <= i < |categories| ==> categories[i].id != categoryId) ==> r.subcategories == []
  {
    var found := FindById(categories, categoryId);
    s.(filters := s.filters.(category := categoryId, subcategory := ""),
       subcategories := if found.Some? then categories[found.value].subcategories else [])
  }

  datatype RangeEnd = Start | End

  /** `handleDateRangeChange`: `{ ...prev, dueDateRange: { ...prev.dueDateRange, [type]: value } }`. */
  function HandleDateRangeChange(s: PageState, which: RangeEnd, value: string): (r: PageState)
    ensures which == Start ==> r.filters.dueDateRange == DateRange(value, s.filters.dueDateRange.end)
    ensures which == End ==> r.filters.dueDateRange == DateRange(s.filters.dueDateRange.start, value)
    ensures forall field :: FilterValue(r.filters, field) == FilterValue(s.filters, field)
    ensures r.subcategories == s.subcategories && r.showOnlyOverdue == s.showOnlyOverdue && r.view == s.view
  {
    var range := s.filters.dueDateRange;
    var next := if which == Start then range.(start := value) else range.(end := value);
    s.(filters := s.filters.(dueDateRange := next))
  }

  /** `clearFilters`: the initial filter record, with no subcategories offered. */
  function ClearFilters(s: PageState): (r: PageState)
    ensures forall field :: FilterValue(r.filters, field) == ""
    ensures r.filters.dueDateRange == DateRange("", "") && r.subcategories == []
    ensures r.showOnlyOverdue == s.showOnlyOverdue && r.view == s.view
  {
    s.(filters := InitialTaskFilters, subcategories := [])
  }

  /** Clearing after any sequence of filter edits gives back the page's initial filters. */
  lemma ClearRestoresInitial(s: PageState)
    ensures ClearFilters(s) == InitialPageState.(showOnlyOverdue := s.showOnlyOverdue, view := s.view)
  {
  }

  /** `toggleOverdueTasks`. */
  function ToggleOverdue(s: PageState): (r: PageState)
    ensures r.showOnlyOverdue != s.showOnlyOverdue
    ensures r.filters == s.filters && r.subcategories == s.subcategories && r.view == s.view
  {
    s.(showOnlyOverdue := !s.showOnlyOverdue)
  }

  lemma ToggleTwice(s: PageState)
    ensures ToggleOverdue(ToggleOverdue(s)) == s
  {
  }

  /** The query parameters of `fetchTasks`: none in overdue-only mode, otherwise the filter
      record spread out with the two ends of the date range copied to `startDate`/`endDate`. */
  datatype TaskParams = NoParams | FilterParams(filters: TaskFilters, startDate: string, endDate: string)

  datatype TaskRequest = TaskRequest(endpoint: string, params: TaskParams)

  function FetchTasksRequest(s: PageState): (r: TaskRequest)
    ensures s.showOnlyOverdue ==> r == TaskRequest("/tasks/overdue", NoParams)
    ensures !s.showOnlyOverdue ==> r.endpoint == "/tasks" && r.params.FilterParams?
    ensures !s.showOnlyOverdue ==>
              r.params.filters == s.filters
              && r.params.startDate == s.filters.dueDateRange.start
              && r.params.endDate == s.filters.dueDateRange.end
  {
    if s.showOnlyOverdue then TaskRequest("/tasks/overdue", NoParams)
    else TaskRequest("/tasks", FilterParams(s.filters, s.filters.dueDateRange.start, s.filters.dueDateRange.end))
  }

  /** A date picked on the page reaches the next request as `startDate` or `endDate`, unless
      the overdue-only switch is on, in which case no filter is sent at all. */
  lemma DateRangeReachesRequest(s: PageState, which: RangeEnd, value: string)
    ensures var q := FetchTasksRequest(HandleDateRangeChange(s, which, value));
            (s.showOnlyOverdue ==> q.params == NoParams)
            && (!s.showOnlyOverdue && which == Start ==>
                  q.params.startDate == value && q.params.endDate == s.filters.dueDateRange.end)
            && (!s.showOnlyOverdue && which == End ==>
                  q.params.endDate == value && q.params.startDate == s.filters.dueDateRange.start)
  {
  }

  /** The filter bar is drawn on every tab except "Create Task" (0) and "Manage Category" (4). */
  predicate ShowsFilterBar(view: int) {
    view != 0 && view != 4
  }

  lemma FilterBarTabs(view: int)
    requires 0 <= view < 5
    ensures ShowsFilterBar(view) <==> view in {1, 2, 3}
  {
  }
}
