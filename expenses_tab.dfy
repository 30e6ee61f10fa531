/** The expenses tab (src/components/Dashboard/ExpensesTab.js) apart from its chart
    summary: the filter bar, the settle-month flag, and the list of projections with the
    dialog that creates and edits them. Every request is replaced by its outcome. */
module ExpensesTab {
  import opened JsValues
  import opened Lists
  import opened CategoryGroups

  // ---- Filters ----

  /** The seven filter inputs, all strings as the inputs hold them. */
  datatype ExpenseFilters = ExpenseFilters(
    startDate: string,
    endDate: string,
    minAmount: string,
    maxAmount: string,
    assignedTo: string,
    category: string,
    subcategory: string)

  datatype FilterField = StartDate | EndDate | MinAmount | MaxAmount | AssignedTo | CategoryFilter | SubcategoryFilter

  const AllFilterFields: seq<FilterField> :=
    [StartDate, EndDate, MinAmount, MaxAmount, AssignedTo, CategoryFilter, SubcategoryFilter]

  const EmptyFilters := ExpenseFilters("", "", "", "", "", "", "")

  function FilterValue(f: ExpenseFilters, field: FilterField): string {
    match field
    case StartDate => f.startDate
    case EndDate => f.endDate
    case MinAmount => f.minAmount
    case MaxAmount => f.maxAmount
    case AssignedTo => f.assignedTo
    case CategoryFilter => f.category
    case SubcategoryFilter => f.subcategory
  }

  /** `{ ...filters, [name]: value }`. */
  function SetFilter(f: ExpenseFilters, field: FilterField, value: string): (r: ExpenseFilters)
    ensures FilterValue(r, field) == value
    ensures forall other :: other != field ==> FilterValue(r, other) == FilterValue(f, other)
  {
    match field
    case StartDate => f.(startDate := value)
    case EndDate => f.(endDate := value)
    case MinAmount => f.(minAmount := value)
    case MaxAmount => f.(maxAmount := value)
    case AssignedTo => f.(assignedTo := value)
    case CategoryFilter => f.(category := value)
    case SubcategoryFilter => f.(subcategory := value)
  }

  /** The filter part of the tab: the filters, the page of the expense table and the
      subcategories offered for the chosen category. */
  datatype FilterState = FilterState(filters: ExpenseFilters, page: int, subcategories: seq<string>)

  const InitialFilterState := FilterState(EmptyFilters, 1, [])

  /** `handleFilterChange`: set the named filter and go back to page 1. */
  function HandleFilterChange(s: FilterState, field: FilterField, value: string): (r: FilterState)
    ensures FilterValue(r.filters, field) == value
    ensures forall other :: other != field ==> FilterValue(r.filters, other) == FilterValue(s.filters, other)
    ensures r.page == 1 && r.subcategories == s.subcategories
  {
    FilterState(SetFilter(s.filters, field, value), 1, s.subcategories)
  }

  /** `handleCategoryChange`: set the category, clear the subcategory and offer the chosen
      category's subcategories. The page is left where it was. */
  function HandleCategoryChange(s: FilterState, groups: seq<CategoryGroup>, category: string): (r: FilterState)
    ensures r.filters.category == category && r.filters.subcategory == ""
    ensures forall other :: other != CategoryFilter && other != SubcategoryFilter ==>
              FilterValue(r.filters, other) == FilterValue(s.filters, other)
    ensures r.page == s.page
    ensures r.subcategories == SubcategoriesFor(groups, category)
  {
    FilterState(s.filters.(category := category, subcategory := ""), s.page, SubcategoriesFor(groups, category))
  }

  /** `clearFilters`: every filter back to '' and no subcategories. */
  function ClearFilters(s: FilterState): (r: FilterState)
    ensures forall field :: FilterValue(r.filters, field) == ""
    ensures r.subcategories == [] && r.page == s.page
  {
    FilterState(EmptyFilters, s.page, [])
  }

  /** Clearing after any sequence of changes gives the filters the tab starts with. */
  lemma ClearRestoresInitial(s: FilterState)
    ensures ClearFilters(s) == InitialFilterState.(page := s.page)
  {
  }

  /** On categories grouped from the rows, the subcategories offered for a category are
      exactly the ones paired with it, each once. */
  lemma CategoryChangeOffers(s: FilterState, rows: seq<CategoryRow>, category: string)
    ensures var r := HandleCategoryChange(s, Grouped(rows), category);
            Distinct(r.subcategories) && forall sub :: sub in r.subcategories <==> CategoryRow(category, sub) in rows
  {
    SubcategoriesForGrouped(rows, category);
  }

  /** `fetchCategories`: on a response, the grouped rows replace the categories; on a
      failure they stay as they were. */
  method FetchCategories(current: seq<CategoryGroup>, response: Option<seq<CategoryRow>>) returns (categories: seq<CategoryGroup>)
    ensures response.None? ==> categories == current
    ensures response.Some? ==> categories == Grouped(response.value)
  {
    if response.Some? {
      categories := GroupCategories(response.value);
    } else {
      categories := current;
    }
  }

  // ---- Monthly parities ----

  /** One month's parity as the server reports it; the amounts are only displayed. */
  datatype Parity = Parity(month: int, year: int, expected: int, actual: int, disparity: int, settled: bool)

  /** `handleSettleMonth`, with the outcome of the POST as `posted`: the parities of that
      month and year are marked settled, nothing else changes. */
  function SettleMonth(parities: seq<Parity>, month: int, year: int, posted: bool): (r: seq<Parity>)
    ensures |r| == |parities|
    ensures forall i :: 0 <= i < |r| ==>
              r[i].settled == (parities[i].settled || (posted && parities[i].month == month && parities[i].year == year))
    ensures forall i :: 0 <= i < |r| ==> r[i].(settled := parities[i].settled) == parities[i]
  {
    if !posted then parities
    else seq(|parities|, i requires 0 <= i < |parities| =>
           if parities[i].month == month && parities[i].year == year then parities[i].(settled := true) else parities[i])
  }

  /** Settling the same month twice is settling it once. */
  lemma SettleMonthTwice(parities: seq<Parity>, month: int, year: int)
    ensures SettleMonth(SettleMonth(parities, month, year, true), month, year, true) == SettleMonth(parities, month, year, true)
  {
    var once := SettleMonth(parities, month, year, true);
    var twice := SettleMonth(once, month, year, true);
    forall i | 0 <= i < |once| ensures twice[i] == once[i] {
      assert twice[i].(settled := once[i].settled) == once[i];
    }
  }

  /** Settling one month leaves the settled flag of every other month as it was. */
  lemma SettleMonthOthers(parities: seq<Parity>, month: int, year: int, i: nat)
    requires i < |parities| && (parities[i].month != month || parities[i].year != year)
    ensures SettleMonth(parities, month, year, true)[i] == parities[i]
  {
    var r := SettleMonth(parities, month, year, true);
    assert r[i].(settled := parities[i].settled) == parities[i];
  }

  // ---- Projections ----

  /** One line of a projection. `subcategories` is the list the row's subcategory menu
      offers; rows loaded from a saved projection carry none. */
  datatype ExpenseRow = ExpenseRow(
    expenseName: string,
    category: string,
    subCategory: string,
    subcategories: seq<string>,
    amount: string,
    recurrence: string,
    notes: string)

  const BlankRow := ExpenseRow("", "", "", [], "", "", "")

  /** A saved projection; its computed totals are server output and are not kept here. */
  datatype Projection = Projection(id: string, name: string, durationMonths: string, monthlyExpenses: seq<ExpenseRow>)

  function ProjectionId(p: Projection): string {
    p.id
  }

  /** The dialog's draft, `newProjection`. */
  datatype Draft = Draft(name: string, durationMonths: string, expenses: seq<ExpenseRow>)

  const EmptyDraft := Draft("", "", [])

  /** The projection part of the tab. */
  datatype ProjectionState = ProjectionState(
    projections: seq<Projection>,
    dialogOpen: bool,
    draft: Draft,
    selected: Option<Projection>,
    editMode: bool,
    error: string)

  const NotAuthorizedMessage := "You are not authorized to perform this action."
  const CreateFailedMessage := "Failed to create projection. Please check your permissions."

  /** The "Add Expense" button: a blank row after the existing ones. */
  function AddExpenseRow(d: Draft): (r: Draft)
    ensures |r.expenses| == |d.expenses| + 1 && r.expenses[..|d.expenses|] == d.expenses
    ensures r.expenses[|d.expenses|] == BlankRow
    ensures r.name == d.name && r.durationMonths == d.durationMonths
  {
    d.(expenses := d.expenses + [BlankRow])
  }

  /** The row's delete button: `expenses.filter((_, i) => i !== index)`. */
  function RemoveExpenseRow(d: Draft, index: nat): (r: Draft)
    ensures index < |d.expenses| ==> r.expenses == d.expenses[..index] + d.expenses[index + 1..]
    ensures index >= |d.expenses| ==> r == d
    ensures r.name == d.name && r.durationMonths == d.durationMonths
  {
    d.(expenses := RemoveAt(d.expenses, index))
  }

  /** Adding a row and then removing it gives the draft back. */
  lemma AddThenRemoveRow(d: Draft)
    ensures RemoveExpenseRow(AddExpenseRow(d), |d.expenses|) == d
  {
    assert (d.expenses + [BlankRow])[..|d.expenses|] == d.expenses;
  }

  /** A row's category menu: set the category, clear the subcategory and offer the
      category's subcategories; the other rows are untouched. */
  function ChangeRowCategory(d: Draft, groups: seq<CategoryGroup>, index: nat, category: string): (r: Draft)
    requires index < |d.expenses|
    ensures |r.expenses| == |d.expenses|
    ensures forall j :: 0 <= j < |d.expenses| && j != index ==> r.expenses[j] == d.expenses[j]
    ensures var row := r.expenses[index];
            row.category == category && row.subCategory == "" && row.subcategories == SubcategoriesFor(groups, category)
    ensures var row := r.expenses[index];
            row.expenseName == d.expenses[index].expenseName && row.amount == d.expenses[index].amount
            && row.recurrence == d.expenses[index].recurrence && row.notes == d.expenses[index].notes
    ensures r.name == d.name && r.durationMonths == d.durationMonths
  {
    var row := d.expenses[index].(category := category, subCategory := "", subcategories := SubcategoriesFor(groups, category));
    d.(expenses := d.expenses[index := row])
  }

  datatype RowField = ExpenseNameField | SubCategoryField | AmountField | RecurrenceField | NotesField

  function RowValue(row: ExpenseRow, field: RowField): string {
    match field
    case ExpenseNameField => row.expenseName
    case SubCategoryField => row.subCategory
    case AmountField => row.amount
    case RecurrenceField => row.recurrence
    case NotesField => row.notes
  }

  /** The other inputs of a row: `updatedExpenses[index].<field> = value`. */
  function SetRowField(d: Draft, index: nat, field: RowField, value: string): (r: Draft)
    requires index < |d.expenses|
    ensures |r.expenses| == |d.expenses|
    ensures forall j :: 0 <= j < |d.expenses| && j != index ==> r.expenses[j] == d.expenses[j]
    ensures RowValue(r.expenses[index], field) == value
    ensures forall other :: other != field ==> RowValue(r.expenses[index], other) == RowValue(d.expenses[index], other)
    ensures r.expenses[index].category == d.expenses[index].category
    ensures r.expenses[index].subcategories == d.expenses[index].subcategories
    ensures r.name == d.name && r.durationMonths == d.durationMonths
  {
    var row := d.expenses[index];
    var row' := match field
      case ExpenseNameField => row.(expenseName := value)
      case SubCategoryField => row.(subCategory := value)
      case AmountField => row.(amount := value)
      case RecurrenceField => row.(recurrence := value)
      case NotesField => row.(notes := value);
    d.(expenses := d.expenses[index := row'])
  }

  /** `handleCreateProjection`. `hasToken` is whether a token is stored and `created` the
      projection the POST returns, or None when it fails. */
  function CreateProjection(s: ProjectionState, hasToken: bool, created: Option<Projection>): (r: ProjectionState)
    ensures !hasToken ==> r == s.(error := NotAuthorizedMessage)
    ensures hasToken && created.Some? ==>
              r.projections == s.projections + [created.value] && !r.dialogOpen && r.draft == EmptyDraft
              && r.error == s.error && r.editMode == s.editMode && r.selected == s.selected
    ensures hasToken && created.None? ==> r == s.(error := CreateFailedMessage)
  {
    if !hasToken then s.(error := NotAuthorizedMessage)
    else if created.None? then s.(error := CreateFailedMessage)
    else s.(projections := s.projections + [created.value], dialogOpen := false, draft := EmptyDraft)
  }

  /** The row of a saved projection as the edit dialog loads it: its subcategory list is
      not copied. */
  function LoadedRow(e: ExpenseRow): ExpenseRow {
    e.(subcategories := [])
  }

  /** `handleEditProjection`: select the projection, copy it into the draft and open the
      dialog in edit mode. */
  function EditProjection(s: ProjectionState, p: Projection): (r: ProjectionState)
    ensures r.selected == Some(p) && r.editMode && r.dialogOpen
    ensures r.draft.name == p.name && r.draft.durationMonths == p.durationMonths
    ensures |r.draft.expenses| == |p.monthlyExpenses|
    ensures forall j :: 0 <= j < |p.monthlyExpenses| ==>
              r.draft.expenses[j].(subcategories := p.monthlyExpenses[j].subcategories) == p.monthlyExpenses[j]
    ensures r.projections == s.projections && r.error == s.error
  {
    var rows := seq(|p.monthlyExpenses|, j requires 0 <= j < |p.monthlyExpenses| => LoadedRow(p.monthlyExpenses[j]));
    s.(selected := Some(p), draft := Draft(p.name, p.durationMonths, rows), editMode := true, dialogOpen := true)
  }

  /** `handleSaveEditedProjection`, with the projection the PUT returns as `saved`
      (None when it fails). With nothing selected, `selectedProjection._id` throws and the
      catch leaves everything as it was. */
  function SaveEditedProjection(s: ProjectionState, saved: Option<Projection>): (r: ProjectionState)
    ensures (s.selected.None? || saved.None?) ==> r == s
    ensures s.selected.Some? && saved.Some? ==>
              var id := s.selected.value.id;
              && |r.projections| == |s.projections|
              && (forall i :: 0 <= i < |s.projections| ==>
                    r.projections[i] == if s.projections[i].id == id then saved.value else s.projections[i])
              && !r.editMode && r.selected.None? && !r.dialogOpen && r.draft == s.draft
              && r.error == s.error
  {
    if s.selected.None? || saved.None? then s
    else
      s.(projections := ReplaceWhere(s.projections, ProjectionId, s.selected.value.id, saved.value),
         editMode := false, selected := None, dialogOpen := false)
  }

  /** A successful edit that keeps the id leaves every other projection in place and the
      number of projections with that id unchanged. */
  lemma SaveEditedKeepsOthers(s: ProjectionState, saved: Projection)
    requires s.selected.Some? && saved.id == s.selected.value.id
    ensures var r := SaveEditedProjection(s, Some(saved));
            && Without(r.projections, ProjectionId, saved.id) == Without(s.projections, ProjectionId, saved.id)
            && CountKey(r.projections, ProjectionId, saved.id) == CountKey(s.projections, ProjectionId, saved.id)
  {
    ReplaceKeepsOthers(s.projections, ProjectionId, saved.id, saved);
  }

  /** `handleDeleteProjection`: `confirmed` is the answer to the confirm box and `deleted`
      the outcome of the DELETE. */
  function DeleteProjection(projections: seq<Projection>, id: string, confirmed: bool, deleted: bool): (r: seq<Projection>)
    ensures !(confirmed && deleted) ==> r == projections
    ensures confirmed && deleted ==>
              && |r| == |projections| - CountKey(projections, ProjectionId, id)
              && forall p :: p in r <==> p in projections && p.id != id
  {
    if confirmed && deleted then Without(projections, ProjectionId, id) else projections
  }

  /** Deleting keeps the remaining projections in their order: deleting from a list split
      in two deletes from each half. */
  lemma DeleteProjectionKeepsOrder(a: seq<Projection>, b: seq<Projection>, id: string)
    ensures DeleteProjection(a + b, id, true, true) == DeleteProjection(a, id, true, true) + DeleteProjection(b, id, true, true)
  {
    WithoutAppend(a, b, ProjectionId, id);
  }

  /** Deleting an id twice is deleting it once. */
  lemma DeleteProjectionTwice(projections: seq<Projection>, id: string)
    ensures DeleteProjection(DeleteProjection(projections, id, true, true), id, true, true) == DeleteProjection(projections, id, true, true)
  {
    WithoutIdempotent(projections, ProjectionId, id);
  }
}
