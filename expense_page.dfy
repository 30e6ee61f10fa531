/** The expense page (src/pages/Expense.js): the creation form with its category-dependent
    subcategory list, the category grouping it loads, and the list filters. */
module ExpensePage {
  import opened JsValues
  import opened CategoryGroups

  /** `fetchCategories`: on a response, the grouped rows replace the categories; a failure
      is only logged. */
  method FetchCategories(current: seq<CategoryGroup>, response: Option<seq<CategoryRow>>) returns (categories: seq<CategoryGroup>)
    ensures response.None? ==> categories == current
    ensures response.Some? ==> categories == Grouped(response.value)
  {
    if response.Some? {
      categories := GroupCategories(response.value);
    } else {
      categories := current;
    }
  }

  /** The seven inputs of the creation form, all strings. */
  datatype ExpenseForm = ExpenseForm(
    expenseName: string,
    amount: string,
    date: string,
    category: string,
    subcategory: string,
    assignedTo: string,
    notes: string)

  datatype FormField = ExpenseName | Amount | Date | Category | Subcategory | AssignedTo | Notes

  const AllFormFields: seq<FormField> := [ExpenseName, Amount, Date, Category, Subcategory, AssignedTo, Notes]

  const EmptyExpenseForm := ExpenseForm("", "", "", "", "", "", "")

  function FormValue(f: ExpenseForm, field: FormField): string {
    match field
    case ExpenseName => f.expenseName
    case Amount => f.amount
    case Date => f.date
    case Category => f.category
    case Subcategory => f.subcategory
    case AssignedTo => f.assignedTo
    case Notes => f.notes
  }

  /** `handleChange`: `{ ...formData, [name]: value }`. */
  function HandleChange(f: ExpenseForm, field: FormField, value: string): (r: ExpenseForm)
    ensures FormValue(r, field) == value
    ensures forall other :: other != field ==> FormValue(r, other) == FormValue(f, other)
  {
    match field
    case ExpenseName => f.(expenseName := value)
    case Amount => f.(amount := value)
    case Date => f.(date := value)
    case Category => f.(category := value)
    case Subcategory => f.(subcategory := value)
    case AssignedTo => f.(assignedTo := value)
    case Notes => f.(notes := value)
  }

  /** A form is determined by its seven values. */
  lemma FormExtensional(f: ExpenseForm, g: ExpenseForm)
    requires forall field :: field in AllFormFields ==> FormValue(f, field) == FormValue(g, field)
    ensures f == g
  {
    assert FormValue(f, ExpenseName) == FormValue(g, ExpenseName);
    assert FormValue(f, Amount) == FormValue(g, Amount);
    assert FormValue(f, Date) == FormValue(g, Date);
    assert FormValue(f, Category) == FormValue(g, Category);
    assert FormValue(f, Subcategory) == FormValue(g, Subcategory);
    assert FormValue(f, AssignedTo) == FormValue(g, AssignedTo);
    assert FormValue(f, Notes) == FormValue(g, Notes);
  }

  /** Typing a field's old value back restores the form. */
  lemma HandleChangeUndo(f: ExpenseForm, field: FormField, value: string)
    ensures HandleChange(HandleChange(f, field, value), field, FormValue(f, field)) == f
  {
    var g := HandleChange(HandleChange(f, field, value), field, FormValue(f, field));
    FormExtensional(g, f);
  }

  /** The form together with the subcategories offered for its category. */
  datatype FormState = FormState(form: ExpenseForm, subcategories: seq<string>, success: bool, error: string)

  /** `handleCategoryChange`: the category is set and the subcategory cleared; the offered
      subcategories are those of the first category with exactly that name, or none. */
  function HandleCategoryChange(s: FormState, categories: seq<CategoryGroup>, selected: string): (r: FormState)
    ensures r.form == s.form.(category := selected, subcategory := "")
    ensures r.subcategories == SubcategoriesFor(categories, selected)
    ensures r.success == s.success && r.error == s.error
  {
    s.(form := s.form.(category := selected, subcategory := ""), subcategories := SubcategoriesFor(categories, selected))
  }

  /** On loaded categories the choice offers exactly the subcategories recorded with the
      chosen name, each once, and none for an unknown name. */
  lemma CategoryChangeOffers(s: FormState, rows: seq<CategoryRow>, selected: string)
    ensures var r := HandleCategoryChange(s, Grouped(rows), selected);
            Distinct(r.subcategories)
            && (forall x :: x in r.subcategories <==> CategoryRow(selected, x) in rows)
            && r.form.subcategory == ""
  {
    var g := Grouped(rows);
    var r := HandleCategoryChange(s, g, selected);
    SubcategoriesForGrouped(rows, selected);
    assert r.subcategories == SubcategoriesFor(g, selected);
  }

  const NotLoggedInMessage := "You are not logged in"
  const CreateFailedMessage := "Failed to create expense. Please try again."

  /** The new state and the form posted, if any. */
  datatype Submission = Submission(state: FormState, request: Option<ExpenseForm>)

  /** `handleSubmit`, with whether a token is stored as `hasToken` and the outcome of the
      POST as `posted`. The messages are cleared first; without a token nothing is sent. */
  function HandleSubmit(s: FormState, hasToken: bool, posted: bool): (out: Submission)
    ensures out.request.Some? <==> hasToken
    ensures out.request.Some? ==> out.request.value == s.form
    ensures !hasToken ==> out.state == s.(success := false, error := NotLoggedInMessage)
    ensures hasToken && posted ==> out.state == s.(form := EmptyExpenseForm, success := true, error := "")
    ensures hasToken && !posted ==> out.state == s.(success := false, error := CreateFailedMessage)
  {
    var cleared := s.(success := false, error := "");
    if !hasToken then Submission(cleared.(error := NotLoggedInMessage), None)
    else if posted then Submission(cleared.(form := EmptyExpenseForm, success := true), Some(s.form))
    else Submission(cleared.(error := CreateFailedMessage), Some(s.form))
  }

  /** After a successful submit every one of the seven fields is empty. */
  lemma SubmitClearsEveryField(s: FormState, field: FormField)
    ensures FormValue(HandleSubmit(s, true, true).state.form, field) == ""
  {
  }

  /** The list filters sent as query parameters. The amounts are numbers; the rest are strings. */
  datatype ExpenseFilters = ExpenseFilters(
    user: string,
    category: string,
    subcategory: string,
    minAmount: int,
    maxAmount: int,
    startDate: string,
    endDate: string,
    sortBy: string,
    sortOrder: string)

  /** Listed by default: every amount from 0 to 100000000, newest first by date. */
  const DefaultFilters := ExpenseFilters("", "", "", 0, 100000000, "", "", "date", "desc")

  /** The string-valued filters `handleFilterChange` may name. */
  datatype FilterField = UserFilter | CategoryFilter | SubcategoryFilter | StartDate | EndDate | SortBy | SortOrder

  function FilterValue(f: ExpenseFilters, field: FilterField): string {
    match field
    case UserFilter => f.user
    case CategoryFilter => f.category
    case SubcategoryFilter => f.subcategory
    case StartDate => f.startDate
    case EndDate => f.endDate
    case SortBy => f.sortBy
    case SortOrder => f.sortOrder
  }

  /** `handleFilterChange`: `{ ...filters, [name]: value }`. */
  function HandleFilterChange(f: ExpenseFilters, field: FilterField, value: string): (r: ExpenseFilters)
    ensures FilterValue(r, field) == value
    ensures forall other :: other != field ==> FilterValue(r, other) == FilterValue(f, other)
    ensures r.minAmount == f.minAmount && r.maxAmount == f.maxAmount
  {
    match field
    case UserFilter => f.(user := value)
    case CategoryFilter => f.(category := value)
    case SubcategoryFilter => f.(subcategory := value)
    case StartDate => f.(startDate := value)
    case EndDate => f.(endDate := value)
    case SortBy => f.(sortBy := value)
    case SortOrder => f.(sortOrder := value)
  }

  /** `handleAmountChange`: the slider's pair becomes the amount range. */
  function HandleAmountChange(f: ExpenseFilters, low: int, high: int): (r: ExpenseFilters)
    ensures r.minAmount == low && r.maxAmount == high
    ensures forall field :: FilterValue(r, field) == FilterValue(f, field)
  {
    f.(minAmount := low, maxAmount := high)
  }

  /** Moving the slider back to the old pair restores the filters. */
  lemma AmountChangeUndo(f: ExpenseFilters, low: int, high: int)
    ensures HandleAmountChange(HandleAmountChange(f, low, high), f.minAmount, f.maxAmount) == f
  {
  }
}
