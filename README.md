# Task manager front end — a Dafny model of its state handlers

The task manager is a React application that covers a startup's tasks, expenses,
equity split, documents and notifications. Every screen keeps React state and updates
it in event handlers:

- filter and form fields change one entry of a record;
- a fetched list is grouped into an object keyed by name;
- a task is dragged between status columns;
- a delete removes a row at once and puts the old list back when the request fails;
- a like button steps its count by one.

This project models those handlers and the values derived from their state (charts,
counts, pages, request bodies), and proves what each one promises.

Conventions of the model:

- A server response, a success flag or a confirmation dialog is an input: an
  `Option` for a response (`None` when the request fails) or a `bool`.
- The clock is an integer timestamp `now`.
- Amounts are whole numbers.
- Equity is in hundredths of a percent, so 100 % is `10000`. A text field that does
  not parse is `NaN` (`EquitySplitForm.Percent`).
- A JavaScript object used as a dictionary is a `Dicts.Dict`: its keys in insertion
  order plus a map.
- A task's deadline is `Option<int>`; `None` stands for an absent `deadline` field,
  which `new Date(undefined)` turns into an invalid date that compares false.
- The expense page starts with empty text filters, an amount range from 0 to
  100000000, and newest-first sorting by date (`ExpensePage.DefaultFilters`). The
  expenses tab starts with every filter empty, on page 1.
- Handlers that only compute a next state are functions from the old state to the
  new one.
- The stateful screens are classes with `modifies` clauses: the task list pager, the
  category form, the document view and the document list.
- The category grouping, the chart aggregation, the equity maps and the document form
  serialisation run as loop methods, each proved equal to a specification function.
  The other `reduce`s are recursive functions: the equity totals
  (`EquitySplitForm.Total`, `EquitySplit.TotalEquity`) and the status grouping of the
  board (`TaskStatusView.GroupByStatus`).
- The expense page defines `handleFilterChange` and `handleAmountChange` but wires
  neither to a control. `ExpensePage.HandleFilterChange`, `ExpensePage.HandleAmountChange`
  and `ExpensePage.AmountChangeUndo` model these handlers as written.

## Model

| member | source | states |
|---|---|---|
| JsValues.BlankIffTrimEmpty | src/components/Dashboard/CategoryForm.js:66 | `!s.trim()` holds exactly when every character of `s` is white space as `String.prototype.trim` reads it |
| Tasks.IsOverdue | src/components/Dashboard/TaskListView.js:60 | a completed task and a task without a deadline are never overdue; an overdue task's deadline is before now |
| Lists.Without | src/components/Dashboard/TaskListView.js:46-49 | `filter(x => key(x) !== k)` keeps exactly the elements whose key differs, and its length drops by the number of matching elements |
| Lists.WithoutAppend | src/components/Dashboard/TaskListView.js:46-49 | filtering a concatenation filters each part and keeps their order |
| Lists.WithoutNoMatch | src/components/Dashboard/DashboardTab.js:367-375 | filtering an id no element carries leaves the list unchanged |
| Lists.WithoutIdempotent | src/components/Dashboard/DocumentList.js:49 | filtering the same key twice is filtering it once |
| Lists.ReplaceWhere | src/components/Dashboard/TaskListView.js:52-55 | a `map` replacing the elements with a matching key keeps the length, puts the new value where the key matches and keeps every other element |
| Lists.ReplaceKeepsOthers | src/components/Dashboard/TaskListView.js:52-55 | a replacement leaves the non-matching elements untouched and keeps the number of matching ones |
| Lists.RemoveAt | src/components/Dashboard/TaskStatusView.js:27-58 | `splice(i, 1)` drops exactly index `i` and shifts the later elements down; an index past the end changes nothing |
| CategoryGroups.Names | src/components/Dashboard/ExpensesTab.js:132-148 | the category names of the rows, one per row and in order |
| CategoryGroups.SubsOf | src/components/Dashboard/ExpensesTab.js:132-148 | the subcategories listed for a name are exactly those of its rows |
| CategoryGroups.Grouped | src/components/Dashboard/ExpensesTab.js:132-148 | the grouped categories have distinct names, the same set of names as the rows, and subcategory lists without duplicates holding exactly the rows' subcategories |
| CategoryGroups.GroupedValues | src/components/Dashboard/ExpensesTab.js:147-148 | `Object.values` of the accumulator built from all the rows is the grouping |
| CategoryGroups.GroupCategories | src/components/Dashboard/ExpensesTab.js:127-154 | the `reduce` loop returns the grouping specified by `Grouped` |
| CategoryGroups.SubcategoriesFor | src/components/Dashboard/ExpensesTab.js:170-176 | the subcategories of the group with that name, or none when no group has it |
| CategoryGroups.SubcategoriesForGrouped | src/components/Dashboard/ExpensesTab.js:170-176 | after grouping, the subcategories offered for a name are exactly those of its rows |
| ExpensesTab.SetFilter | src/components/Dashboard/ExpensesTab.js:165-168 | `{ ...filters, [name]: value }` sets one filter and keeps the others |
| ExpensesTab.HandleFilterChange | src/components/Dashboard/ExpensesTab.js:165-168 | a filter change sets that filter, keeps the others and goes back to page 1 |
| ExpensesTab.HandleCategoryChange | src/components/Dashboard/ExpensesTab.js:170-176 | choosing a category sets it, clears the subcategory and offers that category's subcategories |
| ExpensesTab.CategoryChangeOffers | src/components/Dashboard/ExpensesTab.js:170-176 | after a fetch, the subcategories offered for a category are exactly those of its rows |
| ExpensesTab.ClearFilters | src/components/Dashboard/ExpensesTab.js:194-205 | every filter becomes empty and no subcategory is offered |
| ExpensesTab.ClearRestoresInitial | src/components/Dashboard/ExpensesTab.js:43-51 | clearing gives back the initial filter state |
| ExpensesTab.FetchCategories | src/components/Dashboard/ExpensesTab.js:127-154 | a successful fetch stores the grouping of the rows; a failed one keeps the list |
| ExpensesTab.SettleMonth | src/components/Dashboard/ExpensesTab.js:108-124 | after a successful POST, the entries of that month and year are marked settled and nothing else changes; after a failure nothing changes |
| ExpensesTab.SettleMonthTwice | src/components/Dashboard/ExpensesTab.js:114-120 | settling a month twice is settling it once |
| ExpensesTab.SettleMonthOthers | src/components/Dashboard/ExpensesTab.js:114-120 | an entry of another month is untouched |
| ExpensesTab.AddExpenseRow | src/components/Dashboard/ExpensesTab.js:797-806 | one blank row is appended and the other rows and fields are kept |
| ExpensesTab.RemoveExpenseRow | src/components/Dashboard/ExpensesTab.js:785-788 | exactly the row at that index goes; an index past the end changes nothing |
| ExpensesTab.AddThenRemoveRow | src/components/Dashboard/ExpensesTab.js:785-806 | adding a row and then removing it restores the draft |
| ExpensesTab.ChangeRowCategory | src/components/Dashboard/ExpensesTab.js:178-192 | the row's category is set, its subcategory cleared and its subcategory list taken from the groups; the other rows are kept |
| ExpensesTab.SetRowField | src/components/Dashboard/ExpensesTab.js:688-778 | one text field of one row is set, and the other fields and rows are kept |
| ExpensesTab.CreateProjection | src/components/Dashboard/ExpensesTab.js:299-329 | with no token only the error is set; a created projection is appended; a failure only sets the error |
| ExpensesTab.EditProjection | src/components/Dashboard/ExpensesTab.js:332-348 | opening the editor selects the projection and loads its name, duration and rows |
| ExpensesTab.SaveEditedProjection | src/components/Dashboard/ExpensesTab.js:351-366 | a saved projection replaces the one with the selected id; with no selection or a failed save nothing changes |
| ExpensesTab.SaveEditedKeepsOthers | src/components/Dashboard/ExpensesTab.js:358 | saving leaves the projections with other ids untouched |
| ExpensesTab.DeleteProjection | src/components/Dashboard/ExpensesTab.js:369-378 | after a confirmed, successful DELETE, exactly the projections with other ids remain; otherwise nothing changes |
| ExpensesTab.DeleteProjectionKeepsOrder | src/components/Dashboard/ExpensesTab.js:374 | the delete keeps the order of the remaining projections |
| ExpensesTab.DeleteProjectionTwice | src/components/Dashboard/ExpensesTab.js:374 | deleting twice is deleting once |
| ExpenseCharts.SeriesRed | src/components/Dashboard/ExpensesTab.js:262 | the red channel of a series colour is within 0..254 |
| ExpenseCharts.Labels | src/components/Dashboard/ExpensesTab.js:237 | one month label per summary row |
| ExpenseCharts.LabelsNonEmpty | src/components/Dashboard/ExpensesTab.js:256-267 | there are no month labels and no category labels exactly when there is no data |
| ExpenseCharts.MonthChartFor | src/components/Dashboard/ExpensesTab.js:256-265 | the month chart exists iff there is data; its labels are the distinct months in first-seen order, and every series has one value per month |
| ExpenseCharts.MonthChartSeries | src/components/Dashboard/ExpensesTab.js:258-263 | the series are the distinct users of the first month; each month's value is the user's total for that month, and 0 when the user has no row in it |
| ExpenseCharts.CategoryChartFor | src/components/Dashboard/ExpensesTab.js:267-285 | the category chart exists iff there is data; its labels are the distinct categories, one value each, and the values add up to the total spend |
| ExpenseCharts.BurnRate | src/components/Dashboard/ExpensesTab.js:250-252 | the burn rate times the number of months is the total; with no month it is the total |
| ExpenseCharts.ChartFor | src/components/Dashboard/ExpensesTab.js:229-286 | with no data the total and the burn rate are zero |
| ExpenseCharts.CategoryTotalsSum | src/components/Dashboard/ExpensesTab.js:244-245 | the category values add up to the sum of the per-category totals |
| ExpenseCharts.CategorySpendSum | src/components/Dashboard/ExpensesTab.js:244-247 | the per-category totals over the distinct categories add up to the total spend |
| ExpenseCharts.UserMonthSumAbsent | src/components/Dashboard/ExpensesTab.js:261 | a user with no row in a month contributes 0 (`month[user] \|\| 0`) |
| ExpenseCharts.MonthChartMatches | src/components/Dashboard/ExpensesTab.js:256-265 | the chart built from the accumulated object equals the one specified from the rows |
| ExpenseCharts.CategoryChartMatches | src/components/Dashboard/ExpensesTab.js:267-285 | the category chart built from the accumulated object equals the one specified from the rows |
| ExpenseCharts.MonthCountSize | src/components/Dashboard/ExpensesTab.js:233-250 | the size of the month set is the number of distinct month labels |
| ExpenseCharts.SummaryMatches | src/components/Dashboard/ExpensesTab.js:229-286 | the totals, burn rate and charts computed from the accumulators are the specified summary |
| ExpenseCharts.ProcessChartData | src/components/Dashboard/ExpensesTab.js:229-286 | the `forEach` loop computes the summary specified by `ChartFor` |
| ExpensePage.FetchCategories | src/pages/Expense.js:41-69 | a successful fetch stores the grouping of the rows; a failed one keeps the list |
| ExpensePage.HandleChange | src/pages/Expense.js:141-143 | one form field is set and the others are kept |
| ExpensePage.FormExtensional | src/pages/Expense.js:7-15 | two forms that agree on every field are equal |
| ExpensePage.HandleChangeUndo | src/pages/Expense.js:141-143 | writing back a field's old value restores the form |
| ExpensePage.HandleCategoryChange | src/pages/Expense.js:145-152 | the category is set, the subcategory cleared and that category's subcategories offered |
| ExpensePage.CategoryChangeOffers | src/pages/Expense.js:145-152 | after a fetch, the subcategories offered are exactly those of the category's rows |
| ExpensePage.HandleSubmit | src/pages/Expense.js:104-138 | the POST is sent iff there is a token and carries the form; success clears the form, a failure or a missing token sets the error |
| ExpensePage.SubmitClearsEveryField | src/pages/Expense.js:123-132 | after a successful submit every field is empty |
| ExpensePage.HandleFilterChange | src/pages/Expense.js:155-157 | one text filter is set, and the other filters and the amount range are kept |
| ExpensePage.HandleAmountChange | src/pages/Expense.js:159-161 | the slider sets both ends of the amount range and keeps the text filters |
| ExpensePage.AmountChangeUndo | src/pages/Expense.js:159-161 | setting the old range back restores the filters |
| CategoryPage.GroupedCategories | src/pages/Category.js:57-63 | the object built by the `reduce` has the distinct category names as keys in first-seen order, each mapped to the subcategories of its rows in order |
| CategoryPage.GroupSizesSum | src/pages/Category.js:57-63 | the group sizes add up to the number of rows |
| CategoryPage.GroupsNonEmpty | src/pages/Category.js:57-63 | every listed category has at least one subcategory |
| CategoryPage.HandleChange | src/pages/Category.js:39-41 | one form field is set and the other is kept |
| CategoryPage.HandleChangeUndo | src/pages/Category.js:39-41 | writing back the old value restores the form |
| CategoryPage.HandleSubmit | src/pages/Category.js:43-55 | success clears the form and reports no error; a failure keeps the form and sets the error |
| CategoryForm.FindCategory | src/components/Dashboard/CategoryForm.js:40-50 | the first category whose name matches ignoring case, or none when no name matches |
| CategoryForm.FindIgnoresCase | src/components/Dashboard/CategoryForm.js:40-50 | the typed name's case does not change which category is found |
| CategoryForm.LowerIdempotent | src/components/Dashboard/CategoryForm.js:40-50 | lower-casing twice is lower-casing once |
| CategoryForm.EmptyNameNeverMatches | src/components/Dashboard/CategoryForm.js:40-42 | a non-empty typed name never matches a category whose stored name is empty, so the `cat.categoryName &&` guard changes nothing for the lookup |
| CategoryForm.Narrow | src/components/Dashboard/CategoryForm.js:54-63 | the suggestions kept are exactly those that start with the typed text, ignoring case, in their old order |
| CategoryForm.StartsWithTrans | src/components/Dashboard/CategoryForm.js:54-63 | a prefix of a prefix is a prefix |
| CategoryForm.NarrowAppend | src/components/Dashboard/CategoryForm.js:58-60 | narrowing a concatenation is narrowing each part in turn, so the kept suggestions keep their order and their repeats |
| CategoryForm.NarrowProgressive | src/components/Dashboard/CategoryForm.js:54-63 | narrowing by a prefix and then by a longer one is narrowing by the longer one |
| CategoryForm.NarrowEmptyKeepsAll | src/components/Dashboard/CategoryForm.js:54-63 | empty text keeps every suggestion |
| CategoryForm.CheckSave | src/components/Dashboard/CategoryForm.js:65-95 | a blank name or subcategory is refused; so is a subcategory already listed, case-sensitively, under the category matched ignoring case; otherwise the name with the one subcategory is sent |
| CategoryForm.SentIsNew | src/components/Dashboard/CategoryForm.js:72-83 | what is sent has a non-blank name and subcategory, and the subcategory is not yet under the matched category |
| CategoryForm.SubcategoryCaseMatters | src/components/Dashboard/CategoryForm.js:72-76 | "api" under "dev" is sent even though "API" already exists under "Dev" |
| CategoryForm.CategoryFormState.constructor | src/components/Dashboard/CategoryForm.js:6-11 | empty lists and fields, and no category selected |
| CategoryForm.CategoryFormState.FetchCategories | src/components/Dashboard/CategoryForm.js:13-23 | a successful fetch replaces the categories and touches nothing else |
| CategoryForm.CategoryFormState.HandleCategoryChange | src/components/Dashboard/CategoryForm.js:29-51 | empty input clears the selection and suggestions; otherwise the name is set and the matching category's id and subcategories are selected, or the selection is cleared |
| CategoryForm.CategoryFormState.HandleSubcategoryChange | src/components/Dashboard/CategoryForm.js:54-63 | the subcategory is set and the suggestions are narrowed to those starting with it |
| CategoryForm.CategoryFormState.HandleSaveCategory | src/components/Dashboard/CategoryForm.js:65-95 | returns the check's verdict; a sent and stored category clears both fields, any other outcome keeps them |
| EquitySplitForm.Total | src/components/Dashboard/EquitySplitForm.js:97 | the sum is a number iff every value parses |
| EquitySplitForm.TotalOfEqualValues | src/components/Dashboard/EquitySplitForm.js:97 | n equal values add up to n times the value |
| EquitySplitForm.Ids | src/components/Dashboard/EquitySplitForm.js:74-84 | the founders' ids, in order |
| EquitySplitForm.InitialMap | src/components/Dashboard/EquitySplitForm.js:38-50 | the equity object has one key per distinct founder id |
| EquitySplitForm.UniformMap | src/components/Dashboard/EquitySplitForm.js:78-81 | the auto-split object has one key per distinct founder id |
| EquitySplitForm.InitialEquity | src/components/Dashboard/EquitySplitForm.js:38-50 | the loop builds the specified equity object |
| EquitySplitForm.InitialMapPerFounder | src/components/Dashboard/EquitySplitForm.js:38-50 | with distinct ids, every founder starts at their stored equity, and 0 when it is missing |
| EquitySplitForm.LastEquityDistinct | src/components/Dashboard/EquitySplitForm.js:38-50 | with distinct ids, a founder's entry is not overwritten by another |
| EquitySplitForm.FromShares | src/components/Dashboard/EquitySplitForm.js:38-50 | a stored share becomes a founder with its user's id and name and its equity |
| EquitySplitForm.FromUsers | src/components/Dashboard/EquitySplitForm.js:51-63 | every user becomes a founder with equity 0 |
| EquitySplitForm.UsersStartAtZero | src/components/Dashboard/EquitySplitForm.js:51-63 | with only a user list, every founder starts at 0 |
| EquitySplitForm.FetchFoundersAndEquity | src/components/Dashboard/EquitySplitForm.js:29-68 | a stored split fills founders and equity from it; otherwise the user list gives founders at 0; a failure sets the error; an empty response changes nothing |
| EquitySplitForm.AutoShare | src/components/Dashboard/EquitySplitForm.js:77 | the equal share is 100 % divided by the founder count, rounded to two decimals |
| EquitySplitForm.AutoShareBound | src/components/Dashboard/EquitySplitForm.js:77 | the shares add up to within half a hundredth per founder of 100 % |
| EquitySplitForm.AutoSplit | src/components/Dashboard/EquitySplitForm.js:74-84 | the loop gives every founder the equal share |
| EquitySplitForm.HandleAutoSplitChange | src/components/Dashboard/EquitySplitForm.js:74-84 | turning auto split on spreads the equal share over all founders; turning it off keeps the values |
| EquitySplitForm.AutoSplitTotal | src/components/Dashboard/EquitySplitForm.js:74-84 | the auto-split values add up to the founder count times the share, which is within rounding of 100 % |
| EquitySplitForm.HandleEquityChange | src/components/Dashboard/EquitySplitForm.js:87-89 | one founder's value is set and every other key is kept |
| EquitySplitForm.EquityChangeUndo | src/components/Dashboard/EquitySplitForm.js:87-89 | writing back the old value restores the object |
| EquitySplitForm.Payload | src/components/Dashboard/EquitySplitForm.js:106-109 | one claim per founder, in order, with that founder's value |
| EquitySplitForm.PayloadOfInitial | src/components/Dashboard/EquitySplitForm.js:38-50 | submitting the fetched values unchanged sends each founder's stored equity back |
| EquitySplitForm.HandleSubmit | src/components/Dashboard/EquitySplitForm.js:92-124 | the POST is sent iff the values, added exactly in hundredths, come to 10000 (100 %), carrying the payload; otherwise the error gives the total; success and failure set their messages |
| EquitySplitForm.ThreeFoundersRejected | src/components/Dashboard/EquitySplitForm.js:77-102 | three founders on auto split get 33.33 % each, total 99.99 % and are refused |
| EquitySplitForm.FourFoundersAccepted | src/components/Dashboard/EquitySplitForm.js:77-109 | four founders on auto split total exactly 100 % and are sent |
| EquitySplit.TotalEquity | src/components/Dashboard/EquitySplit.js:33 | founders without an equity add up to 0, and a list with no negative equity has a total that is not negative |
| EquitySplit.TotalEquityAppend | src/components/Dashboard/EquitySplit.js:33 | the total over two lists of founders is the sum of their totals |
| EquitySplit.MissingEquityCountsZero | src/components/Dashboard/EquitySplit.js:33 | a founder without equity adds nothing to the total |
| EquitySplit.FetchEquitySplit | src/components/Dashboard/EquitySplit.js:14-27 | a successful fetch replaces the founders; a failure changes nothing |
| EquitySplit.HandleSave | src/components/Dashboard/EquitySplit.js:32-51 | the POST is sent iff the total, added exactly in hundredths, is 10000 (100 %), carrying the founders; otherwise the error is set; success and failure set their messages |
| EquitySplit.InitialSaveRejected | src/components/Dashboard/EquitySplit.js:7-37 | saving the initial empty split is refused with a total of 0 |
| EquitySplit.SaveIsStable | src/components/Dashboard/EquitySplit.js:32-51 | saving again right after a save, with the same POST outcome, gives the same outcome |
| TaskListView.Keeps | src/components/Dashboard/TaskListView.js:59-63 | a kept task is overdue when the switch is on and has the chosen status when one is chosen; with no filter set every task is kept |
| TaskListView.FilterTasks | src/components/Dashboard/TaskListView.js:58-66 | exactly the tasks that pass the overdue, status and search filters are kept, with no task added |
| TaskListView.FilterTasksAppend | src/components/Dashboard/TaskListView.js:57-64 | filtering a concatenation filters each part and keeps them in order, so kept tasks keep their order and repeats |
| TaskListView.FilterKeepsAllByDefault | src/components/Dashboard/TaskListView.js:58-66 | with no filter set, every task is kept in order |
| TaskListView.Insert | src/components/Dashboard/TaskListView.js:58-66 | inserting adds exactly the one task |
| TaskListView.InsertSorted | src/components/Dashboard/TaskListView.js:58-66 | inserting a dated task into a sorted dated list keeps it sorted |
| TaskListView.SortByDeadline | src/components/Dashboard/TaskListView.js:58-66 | sorting is a permutation |
| TaskListView.SortSorted | src/components/Dashboard/TaskListView.js:58-66 | when every task has a deadline, the sorted list is in ascending deadline order |
| TaskListView.FilteredTasks | src/components/Dashboard/TaskListView.js:58-66 | the filtered and sorted list holds exactly the kept tasks and is sorted when all are dated |
| TaskListView.TotalPages | src/components/Dashboard/TaskListView.js:69 | `ceil(n / perPage)`: the pages hold all tasks, and the last page is not empty |
| TaskListView.Paginate | src/components/Dashboard/TaskListView.js:70-73 | a page is the slice `[(page-1)*perPage, page*perPage)` clipped to the list, so at most `perPage` tasks |
| TaskListView.PagesUpToPrefix | src/components/Dashboard/TaskListView.js:70-73 | the first k pages together are the list's first k*perPage tasks |
| TaskListView.PagesCoverList | src/components/Dashboard/TaskListView.js:69-73 | all the pages together are the whole list |
| TaskListView.PagePastEnd | src/components/Dashboard/TaskListView.js:70-73 | a page past the last one is empty |
| TaskListView.TaskListPager.constructor | src/components/Dashboard/TaskListView.js:28-31 | page 1, five per page, no search and no status filter |
| TaskListView.TaskListPager.Visible | src/components/Dashboard/TaskListView.js:58-73 | the visible page holds at most `perPage` tasks, each from the list and passing the filters |
| TaskListView.TaskListPager.NextPage | src/components/Dashboard/TaskListView.js:69-78 | the page goes up by one unless it is the last page of the filtered list, so a page within the page count stays within it |
| TaskListView.TaskListPager.PreviousPage | src/components/Dashboard/TaskListView.js:80-82 | the page goes down by one unless it is the first |
| TaskListView.TaskListPager.SetTasksPerPage | src/components/Dashboard/TaskListView.js:114-117 | a new page size goes back to page 1 |
| TaskListView.TaskListPager.SetSearchTerm | src/components/Dashboard/TaskListView.js:92 | only the search term changes |
| TaskListView.TaskListPager.SetFilterStatus | src/components/Dashboard/TaskListView.js:99 | only the status filter changes |
| TaskListView.DeleteTask | src/components/Dashboard/TaskListView.js:46-49 | exactly the tasks with other ids remain |
| TaskListView.DeleteTaskKeepsOrder | src/components/Dashboard/TaskListView.js:46-49 | the delete keeps the order of the remaining tasks |
| TaskListView.EditTask | src/components/Dashboard/TaskListView.js:52-55 | the tasks with the updated id are replaced, in place |
| TaskListView.EditTaskKeepsOthers | src/components/Dashboard/TaskListView.js:52-55 | an edit leaves the other tasks and the number of tasks with that id as they were |
| TaskStatusView.InitialColumns | src/components/Dashboard/TaskStatusView.js:9-13 | the three board columns, all empty |
| TaskStatusView.Statuses | src/components/Dashboard/TaskStatusView.js:16-25 | the statuses of the tasks, one per task |
| TaskStatusView.WithStatus | src/components/Dashboard/TaskStatusView.js:16-25 | the tasks of one status |
| TaskStatusView.GroupByStatus | src/components/Dashboard/TaskStatusView.js:16-25 | the board columns, then any other status in first-seen order, each holding its tasks in order |
| TaskStatusView.BoardColumnsFirst | src/components/Dashboard/TaskStatusView.js:9-25 | the three board columns come first |
| TaskStatusView.GroupedConsistent | src/components/Dashboard/TaskStatusView.js:16-25 | every card sits in the column of its status |
| TaskStatusView.GroupedCount | src/components/Dashboard/TaskStatusView.js:16-25 | the columns together hold every task once |
| TaskStatusView.StatusSizesSum | src/components/Dashboard/TaskStatusView.js:16-25 | the column sizes add up to the number of tasks |
| TaskStatusView.InsertAt | src/components/Dashboard/TaskStatusView.js:27-58 | `splice(i, 0, x)` inserts at `i`, or at the end when `i` is past it |
| TaskStatusView.Dragged | src/components/Dashboard/TaskStatusView.js:27-58 | a drop into another column removes the card from its source, gives it the destination's status, inserts it at the destination index and keeps every other column; any other drop changes nothing |
| TaskStatusView.HandleDragEnd | src/components/Dashboard/TaskStatusView.js:27-58 | the handler computes `Dragged` |
| TaskStatusView.DragKeepsCount | src/components/Dashboard/TaskStatusView.js:27-58 | a drop keeps the number of cards |
| TaskStatusView.DragKeepsConsistent | src/components/Dashboard/TaskStatusView.js:27-58 | a drop keeps every card in the column of its status, the moved one included |
| TaskStatusView.DialogDelete | src/components/Dashboard/TaskStatusView.js:147-153 | the dialog's delete filters the id out of the status's column only |
| TaskStatusView.DialogEdit | src/components/Dashboard/TaskStatusView.js:154-162 | the dialog's edit replaces the task within the column of the updated task's status; no column changes size |
| TaskStatusView.DialogKeepsConsistent | src/components/Dashboard/TaskStatusView.js:147-162 | a delete keeps every card in the column of its status, and so does an edit, which replaces cards only within the new status's column |
| TaskStatusView.DialogStatusChangeKeepsBoard | src/components/Dashboard/TaskStatusView.js:154-160 | an edit replaces only within the new status's column, so a status change made in the dialog finds no card there and leaves the board as it was |
| TaskStatusView.DialogDeleteCount | src/components/Dashboard/TaskStatusView.js:147-153 | the card count drops by the number of cards with that id in the column |
| TaskCalendarView.TaskEvents | src/components/Dashboard/TaskCalendarView.js:23-32 | one event per task, titled by the task and starting and ending on its deadline |
| TaskCalendarView.DeleteEvents | src/components/Dashboard/TaskCalendarView.js:118-121 | exactly the events of other tasks remain |
| TaskCalendarView.DeleteCommutesWithEvents | src/components/Dashboard/TaskCalendarView.js:23-32 | deleting from the events is deleting the task and mapping again |
| TaskCalendarView.EditEvents | src/components/Dashboard/TaskCalendarView.js:122-128 | the events of the updated task carry the new task, and the others are kept |
| TaskCalendarView.EditKeepsEventFields | src/components/Dashboard/TaskCalendarView.js:122-128 | an edited event carries the edited task but keeps its old title and dates |
| TaskCalendarView.StatusColor | src/components/Dashboard/TaskCalendarView.js:13-17 | each board status has its colour, and the grey fallback is used exactly for any other status |
| TaskCalendarView.CompletedHasNoMarker | src/components/Dashboard/TaskCalendarView.js:90-100 | a completed task shows its colour and never the overdue marker |
| TaskListPage.HandleFilterChange | src/components/Dashboard/TaskListPage.js:93-96 | one filter is set and the other filters and page state are kept |
| TaskListPage.FindById | src/components/Dashboard/TaskListPage.js:98-107 | `find` gives the first category with the id, or none |
| TaskListPage.HandleCategoryChange | src/components/Dashboard/TaskListPage.js:98-107 | the category is set, the subcategory cleared, and the subcategories of the category with that id offered, or none |
| TaskListPage.HandleDateRangeChange | src/components/Dashboard/TaskListPage.js:109-114 | one end of the date range is set and everything else kept |
| TaskListPage.ClearFilters | src/components/Dashboard/TaskListPage.js:116-125 | every filter and the date range become empty, with no subcategory offered |
| TaskListPage.ClearRestoresInitial | src/components/Dashboard/TaskListPage.js:30-36 | clearing gives back the initial filters |
| TaskListPage.ToggleOverdue | src/components/Dashboard/TaskListPage.js:127 | the switch flips and nothing else changes |
| TaskListPage.ToggleTwice | src/components/Dashboard/TaskListPage.js:127 | toggling twice restores the state |
| TaskListPage.FetchTasksRequest | src/components/Dashboard/TaskListPage.js:42-62 | overdue-only mode asks for `/tasks/overdue` without parameters; otherwise `/tasks` gets the filters, with the date range as `startDate` and `endDate` |
| TaskListPage.DateRangeReachesRequest | src/components/Dashboard/TaskListPage.js:45-52 | a picked date reaches the next request, unless overdue-only mode is on |
| TaskListPage.FilterBarTabs | src/components/Dashboard/TaskListPage.js:140 | the filter bar is drawn exactly on tabs 1, 2 and 3 |
| DashboardTab.OverdueTasks | src/components/Dashboard/DashboardTab.js:106-109 | exactly the tasks past their deadline and not completed, with no task added |
| DashboardTab.OverdueAppend | src/components/Dashboard/DashboardTab.js:106-109 | the overdue tasks of a concatenation are those of each part, in order |
| DashboardTab.OverdueExcludes | src/components/Dashboard/DashboardTab.js:106-109 | completed, undated and not-yet-due tasks are never overdue |
| DashboardTab.OverdueGrowsWithTime | src/components/Dashboard/DashboardTab.js:106-109 | a later clock never removes a task from the overdue list |
| DashboardTab.OverdueAlertFor | src/components/Dashboard/DashboardTab.js:165-170 | the alert shows iff a task is overdue, with the count and an "s" exactly when there are more than one |
| DashboardTab.SliceColor | src/components/Dashboard/DashboardTab.js:88-103 | every colour channel is within 0..254 |
| DashboardTab.PieDataFor | src/components/Dashboard/DashboardTab.js:88-103 | one label, value and colour per month of details, in order |
| DashboardTab.SliceColorsRepeat | src/components/Dashboard/DashboardTab.js:88-103 | the slice colours repeat every 51 slices, and the first slice is black |
| DashboardTab.OnDelete | src/components/Dashboard/DashboardTab.js:365-377 | the task is filtered out and the total drops by one |
| DashboardTab.DeleteKeepsCounterInStep | src/components/Dashboard/DashboardTab.js:367-375 | when one task carries the id, the counter keeps matching the list |
| DashboardTab.DeleteAbsentDrifts | src/components/Dashboard/DashboardTab.js:367-375 | deleting an id no task carries still lowers the counter |
| DashboardTab.OnEdit | src/components/Dashboard/DashboardTab.js:378-388 | the task is replaced and the counters are kept |
| DashboardTab.EditToCompletedClearsOverdue | src/components/Dashboard/DashboardTab.js:378-388 | completing a task takes it off the overdue list while the overdue counter stays |
| DocumentEdit.UserIds | src/components/Dashboard/DocumentEdit.js:180-190 | the collaborators' user ids, in order |
| DocumentEdit.NewCollaborators | src/components/Dashboard/DocumentEdit.js:180-190 | each picked user not yet a collaborator is added with the default permission, and each one added is such a picked user |
| DocumentEdit.NewCollaboratorsAppend | src/components/Dashboard/DocumentEdit.js:182-188 | the users picked first are added first, so the new collaborators follow the picker's order |
| DocumentEdit.NewCollaboratorsSingle | src/components/Dashboard/DocumentEdit.js:182-188 | one picked user becomes one collaborator with the default permission exactly when not yet a collaborator |
| DocumentEdit.MergeCollaborators | src/components/Dashboard/DocumentEdit.js:180-190 | the old collaborators stay in front, every one appended is a picked user with the default permission who was not one before, and every picked user ends up a collaborator |
| DocumentEdit.MergeIdempotent | src/components/Dashboard/DocumentEdit.js:180-190 | picking the same users again adds nobody |
| DocumentEdit.NothingNew | src/components/Dashboard/DocumentEdit.js:180-190 | picking only collaborators adds nobody |
| DocumentEdit.MergeKeepsDistinct | src/components/Dashboard/DocumentEdit.js:180-190 | collaborators stay distinct by user |
| DocumentEdit.NewIdsPicked | src/components/Dashboard/DocumentEdit.js:182-188 | every id added is the id of a picked user |
| DocumentEdit.NewDistinct | src/components/Dashboard/DocumentEdit.js:180-190 | the added collaborators are distinct and picked |
| DocumentEdit.ChangePermission | src/components/Dashboard/DocumentEdit.js:128-132 | only the indexed collaborator's permission changes |
| DocumentEdit.PermissionKeepsUsers | src/components/Dashboard/DocumentEdit.js:128-132 | a permission change keeps the collaborators |
| DocumentEdit.RemoveCollaborator | src/components/Dashboard/DocumentEdit.js:134-136 | exactly the indexed collaborator goes |
| DocumentEdit.AddFiles | src/components/Dashboard/DocumentEdit.js:105-107 | the picked files are appended |
| DocumentEdit.RemoveAttachment | src/components/Dashboard/DocumentEdit.js:109-111 | exactly the indexed attachment goes |
| DocumentEdit.AddThenRemoveFile | src/components/Dashboard/DocumentEdit.js:105-111 | removing the first added file leaves the rest |
| DocumentEdit.RemoveExistingAttachment | src/components/Dashboard/DocumentEdit.js:113-126 | a confirmed, successful delete removes exactly the attachments with that key; otherwise nothing changes |
| DocumentEdit.CollaboratorFieldsAt | src/components/Dashboard/DocumentEdit.js:79-88 | two form fields per collaborator: the user id and the permission |
| DocumentEdit.AttachmentFieldsAt | src/components/Dashboard/DocumentEdit.js:79-88 | one form field per attachment |
| DocumentEdit.FormLayout | src/components/Dashboard/DocumentEdit.js:79-88 | title, content, the collaborator fields, then the attachments |
| DocumentEdit.BuildFormData | src/components/Dashboard/DocumentEdit.js:79-88 | the loops append the specified form entries |
| DocumentEdit.SaveRequestFor | src/components/Dashboard/DocumentEdit.js:91-97 | an existing document is PUT to its path, a new one POSTed |
| DocumentEdit.SaveOutcome | src/components/Dashboard/DocumentEdit.js:98-101 | success navigates with the created or updated message; failure shows the error |
| DocumentView.FromLikes | src/components/Dashboard/DocumentView.js:41-42 | the count is the number of likes, and the button is on iff the user is among them |
| DocumentView.Toggled | src/components/Dashboard/DocumentView.js:51-66 | a successful toggle flips the button and steps the count by one; a failed one changes nothing |
| DocumentView.ToggleTwiceRestores | src/components/Dashboard/DocumentView.js:51-66 | two successful toggles restore the state |
| DocumentView.ServerToggled | src/components/Dashboard/DocumentView.js:51-66 | the server's likes after a toggle: the user is removed on unlike or appended on like |
| DocumentView.ToggleMatchesRefetch | src/components/Dashboard/DocumentView.js:41-66 | with each user liking at most once, toggling agrees with fetching again |
| DocumentView.LikesLabel | src/components/Dashboard/DocumentView.js:121 | "Like" exactly for one like |
| DocumentView.CommentRequest | src/components/Dashboard/DocumentView.js:69-77 | a blank comment is not sent; any other one is sent as typed |
| DocumentView.BlankCommentsRefused | src/components/Dashboard/DocumentView.js:69-72 | empty and white-space comments are refused; a padded one is sent with the padding |
| DocumentView.WithComment | src/components/Dashboard/DocumentView.js:79-82 | the stored comment is appended and nothing else changes |
| DocumentView.DocumentViewState.constructor | src/components/Dashboard/DocumentView.js:24-28 | no document, loading, no like and an empty comment box |
| DocumentView.DocumentViewState.FetchDocument | src/components/Dashboard/DocumentView.js:37-49 | a fetched document sets the like state from its likes; loading ends either way |
| DocumentView.DocumentViewState.HandleLike | src/components/Dashboard/DocumentView.js:51-66 | sends unlike when liked, like otherwise, and steps the state as `Toggled` |
| DocumentView.DocumentViewState.SetNewComment | src/components/Dashboard/DocumentView.js:68-89 | only the comment box changes |
| DocumentView.DocumentViewState.HandleAddComment | src/components/Dashboard/DocumentView.js:68-89 | sends `CommentRequest`; a stored comment is appended and the box cleared; otherwise nothing changes |
| DocumentList.Optimistic | src/components/Dashboard/DocumentList.js:49 | exactly the documents with other ids remain |
| DocumentList.Settled | src/components/Dashboard/DocumentList.js:44-60 | success keeps the list, failure restores the snapshot |
| DocumentList.FailedDeleteRestores | src/components/Dashboard/DocumentList.js:48-58 | a failed delete restores exactly the list shown before it |
| DocumentList.DeleteTwiceIsDeleteOnce | src/components/Dashboard/DocumentList.js:49 | deleting an id already gone changes nothing |
| DocumentList.OverlappingRollbackRevives | src/components/Dashboard/DocumentList.js:48-58 | with two deletes in flight, the first one's rollback brings back the document the second one deleted |
| DocumentList.DocumentListState.constructor | src/components/Dashboard/DocumentList.js:23-24 | an empty list, loading |
| DocumentList.DocumentListState.FetchDocuments | src/components/Dashboard/DocumentList.js:32-42 | a fetch replaces the list on success; loading ends either way |
| DocumentList.DocumentListState.BeginDelete | src/components/Dashboard/DocumentList.js:44-49 | a cancelled delete changes nothing; a confirmed one snapshots the list and filters the id out |
| DocumentList.DocumentListState.FinishDelete | src/components/Dashboard/DocumentList.js:50-60 | the list becomes `Settled` on the outcome |
| NotificationContext.Fetched | src/components/Dashboard/NotificationContext.js:10-17 | a fetch replaces the notifications; a failure keeps them |
| NotificationContext.MarkAsRead | src/components/Dashboard/NotificationContext.js:23-27 | the notifications with that id become read, and everything else is kept |
| NotificationContext.MarkAsReadIdempotent | src/components/Dashboard/NotificationContext.js:23-27 | marking twice is marking once |
| NotificationContext.MarksCommute | src/components/Dashboard/NotificationContext.js:23-27 | two marks in either order give the same list |
| NotificationContext.MarkAsReadOutcome | src/components/Dashboard/NotificationContext.js:20-31 | a failed PUT changes nothing; a successful one marks the id read |
| NotificationBell.Unread | src/components/Dashboard/NotificationBell.js:8 | exactly the unread notifications |
| NotificationBell.UnreadAppend | src/components/Dashboard/NotificationBell.js:8 | the unread notifications of a concatenation are those of each part, in order |
| NotificationBell.UnreadCount | src/components/Dashboard/NotificationBell.js:8 | the badge is at most the number of notifications, and 0 without any |
| NotificationBell.UnreadCountCountsUnread | src/components/Dashboard/NotificationBell.js:8 | the badge counts the notifications whose `read` is false |
| NotificationBell.MarkButtons | src/components/Dashboard/NotificationBell.js:55-62 | one "mark as read" button per unread notification |
| NotificationBell.ButtonsExactlyForUnread | src/components/Dashboard/NotificationBell.js:55-62 | a button shows for an id iff an unread notification carries it |
| NotificationBell.UnreadWithId | src/components/Dashboard/NotificationBell.js:8 | the unread notifications with an id are among the unread ones |
| NotificationBell.MarkLowersUnread | src/components/Dashboard/NotificationBell.js:8 | marking an id lowers the badge by the number of unread notifications with it |
| NotificationBell.NoEntryWithId | src/components/Dashboard/NotificationBell.js:8 | an id no notification carries counts 0 |
| NotificationBell.MarkUniqueUnreadLowersByOne | src/components/Dashboard/NotificationBell.js:8 | marking a unique unread id lowers the badge by one |
| NotificationBell.UniqueUnreadCountsOnce | src/components/Dashboard/NotificationBell.js:8 | a unique unread id counts once |
| NotificationBell.AllReadShowsNothing | src/components/Dashboard/NotificationBell.js:40-43 | with everything read the badge is 0 and no button shows |

## Left out

- I/O: axios requests, `localStorage`, `navigate`, snackbars, alerts and rendering are left out. The responses, tokens, confirmations and outcomes are inputs.
- Floating point: amounts are integers and equity is in integer hundredths. `toFixed`, `parseFloat` of arbitrary text and the number formatting in the total-not-100 message are left out; the message carries the total as a value.
- `EquitySplitForm.HandleSubmit`: the source adds the values as binary floating-point numbers and compares the sum with `!== 100`. A split that is exactly 100 % in decimal can miss 100 there (70.7 + 14.65 + 14.65 gives 100.00000000000001), and the source then refuses it with "Current total is 100.00%". The model adds exact hundredths and sends every exact split.
- `EquitySplit.HandleSave`: the same floating-point sum and `!== 100` test; the model sends every split whose exact total is 100 %, including those the source refuses.
- `EquitySplitForm.AutoShare`: models `(100 / n).toFixed(2)` as exact rounding to hundredths, without binary floating-point rounding.
- `ExpenseCharts.BurnRate`: models JavaScript division as exact real division.
- Text handling: upper and lower case are folded for ASCII letters only. White space is the set `String.prototype.trim` removes (`JsValues.IsJsWhitespace`).
- JavaScript objects keep their keys in insertion order in the model. The object order of integer-like keys and inherited prototype keys are left out.
- In-place mutation of shared objects is modelled as building new values: `movedTask.status` in the drag handler, `updatedExpenses[index]` in the row editors and `updatedCollaborators[index].permission`. Aliasing between the old and the new state is not modelled.
- The month labels of the expense chart and the pie are kept as (year, month) pairs rather than formatted strings.
- Chart colours: the styling arrays and dataset labels are left out. Only `SliceColor` and `SeriesRed` are modelled.
- `ExpenseCharts.ChartFor`: states only the empty case in its own contract. Its meaning is stated by `MonthChartFor`, `CategoryChartFor` and `BurnRate`.
- A `null` deadline is not modelled. `new Date(null)` is the epoch, so the task list, the status board and the calendar would treat such a task as dated 0, while the dashboard's `task.deadline &&` guard skips it; whether the server ever stores a null deadline is outside the front end.
- `TaskListView.SortByDeadline`: models the comparator `new Date(a.deadline) - new Date(b.deadline)` as a stable insertion sort. JavaScript leaves the order implementation-defined when a deadline is missing (NaN), so sortedness is promised only when every task has a deadline.
- The refresh after a projection change (`fetchProjections`) is left out. So are the PUT and `onUpdateTasks` after a drag. A drop within the same column changes nothing, in the source (`sourceColumn !== destColumn`) as in the model.
- `CategoryForm`: the `categorySuggestions` list is left out; it is only rendered.
- `DocumentEdit`: `fetchDocument` and `fetchAllUsers` are left out. They only copy a response into state.
- `ExpensePage`: `fetchUsers` and `fetchExpenses` are left out. They only copy a response into state.
- Category.js `fetchCategories` is left out. It replaces the list with the response.
- The dashboard's polling of `fetchDashboardData` is left out; it is a timer.
- `handleSubcategoryChange` with a null value, and saving a category whose stored name is null (a crash in the source), are left out.
- `EquitySplitForm.FetchFoundersAndEquity`: follows the code, which reads the stored split from the `equitySplit` field of the response, not `founders`.
- `TaskListPage.FilterBarTabs`: follows the code (`view !== 0 && view !== 4`), although the comment beside it mentions tab 3.
- `ExpensePage.FetchCategories`: groups with the same `CategoryGroups.GroupCategories` as the expenses tab, since both `reduce`s build the same groups.
- `DocumentView`: a document whose `likes` or `comments` array is missing makes the source throw; the model always has both arrays.
- `DocumentView.ToggleMatchesRefetch`: the server's like list is not part of this model; the lemma assumes a server that removes the user on unlike and appends them on like (`ServerToggled`).
- `NotificationBell`: a missing `read` field is falsy in the source; the model has a boolean that is false then.
- `DocumentList`: concurrency is modelled only by splitting `handleDelete` into `BeginDelete` and `FinishDelete` at its `await`.
