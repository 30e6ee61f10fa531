/** The category page (src/pages/Category.js): a two-field creation form and a table that
    folds the flat category rows into an object from category name to the list of every
    subcategory name paired with it, repeats kept. */
module CategoryPage {
  import opened JsValues
  import opened Dicts
  import opened CategoryGroups

  /** The loop invariant of the page's `reduce`: one key per name seen, in order of first
      appearance, holding that name's subcategories in row order. */
  ghost predicate ListedSoFar(acc: Dict<string, seq<string>>, done: seq<CategoryRow>) {
    && acc.Valid()
    && acc.keys == Dedup(Names(done))
    && forall k :: k in acc.entries ==> acc.entries[k] == SubsOf(done, k)
  }

  /** The array stored for `row` after the loop body: the existing one, or `[]`, with the
      subcategory pushed. */
  function NextList(acc: Dict<string, seq<string>>, row: CategoryRow): seq<string> {
    (if row.categoryName in acc.entries then acc.entries[row.categoryName] else []) + [row.subcategoryName]
  }

  lemma ListStepKeys(acc: Dict<string, seq<string>>, done: seq<CategoryRow>, row: CategoryRow)
    requires ListedSoFar(acc, done)
    ensures acc.Put(row.categoryName, NextList(acc, row)).keys == Dedup(Names(done + [row]))
  {
    NamesSnoc(done, row);
    DedupSnoc(Names(done), row.categoryName);
  }

  lemma ListStepEntries(acc: Dict<string, seq<string>>, done: seq<CategoryRow>, row: CategoryRow)
    requires ListedSoFar(acc, done)
    ensures var next := acc.Put(row.categoryName, NextList(acc, row));
            forall k :: k in next.entries ==> next.entries[k] == SubsOf(done + [row], k)
  {
    var next := acc.Put(row.categoryName, NextList(acc, row));
    if row.categoryName !in acc.entries {
      SubsOfAbsent(done, row.categoryName);
    }
    forall k | k in next.entries ensures next.entries[k] == SubsOf(done + [row], k) {
      SubsSnoc(done, row, k);
    }
  }

  /** One pass of the loop body, at row `i`, keeps the invariant. */
  lemma ListStep(acc: Dict<string, seq<string>>, rows: seq<CategoryRow>, i: nat, list: seq<string>)
    requires i < |rows| && ListedSoFar(acc, rows[..i])
    requires list == NextList(acc, rows[i])
    ensures ListedSoFar(acc.Put(rows[i].categoryName, list), rows[..i + 1])
  {
    ListStepKeys(acc, rows[..i], rows[i]);
    ListStepEntries(acc, rows[..i], rows[i]);
    PrefixSnoc(rows, i);
  }

  /** `groupedCategories`: `acc[name]` is created as `[]` on the first row of a name, then
      every row pushes its subcategory name onto it. */
  method GroupedCategories(rows: seq<CategoryRow>) returns (grouped: Dict<string, seq<string>>)
    ensures grouped.Valid()
    ensures grouped.keys == Dedup(Names(rows))
    ensures forall k :: k in grouped.entries ==> grouped.entries[k] == SubsOf(rows, k)
  {
    grouped := EmptyDict();
    var i := 0;
    while i < |rows|
      invariant 0 <= i <= |rows|
      invariant ListedSoFar(grouped, rows[..i])
    {
      var row := rows[i];
      var list := NextList(grouped, row);
      ListStep(grouped, rows, i, list);
      grouped := grouped.Put(row.categoryName, list);
      i := i + 1;
    }
    ListedAll(grouped, rows);
  }

  lemma ListedAll(acc: Dict<string, seq<string>>, rows: seq<CategoryRow>)
    requires ListedSoFar(acc, rows[..|rows|])
    ensures ListedSoFar(acc, rows)
  {
    assert rows[..|rows|] == rows;
  }

  /** Every row lands in exactly one list, so the list lengths add up to the number of rows. */
  lemma {:induction false} GroupSizesSum(rows: seq<CategoryRow>)
    ensures SumBy(Dedup(Names(rows)), k => |SubsOf(rows, k)|) == |rows|
  {
    if rows != [] {
      var p := rows[..|rows| - 1];
      var row := rows[|rows| - 1];
      assert rows == p + [row];
      GroupSizesSum(p);
      NamesSnoc(p, row);
      DedupSnoc(Names(p), row.categoryName);
      var f := k => |SubsOf(p, k)|;
      var g := k => |SubsOf(rows, k)|;
      forall k ensures g(k) == f(k) + (if k == row.categoryName then 1 else 0) {
        SubsSnoc(p, row, k);
      }
      var before := Dedup(Names(p));
      if row.categoryName in before {
        SumByBump(before, f, g, row.categoryName, 1);
      } else {
        SubsOfAbsent(p, row.categoryName);
        SumByCongruent(before, f, g);
        assert (before + [row.categoryName])[..|before|] == before;
      }
    }
  }

  /** Every key of the grouping holds at least one subcategory name. */
  lemma GroupsNonEmpty(rows: seq<CategoryRow>, k: string)
    requires k in Names(rows)
    ensures |SubsOf(rows, k)| > 0
  {
    var row :| row in rows && row.categoryName == k;
    assert CategoryRow(k, row.subcategoryName) == row;
    assert row.subcategoryName in SubsOf(rows, k);
  }

  /** The two inputs of the creation form. */
  datatype CategoryFormData = CategoryFormData(categoryName: string, subcategoryName: string)

  datatype CategoryField = CategoryNameField | SubcategoryNameField

  const EmptyCategoryForm := CategoryFormData("", "")

  function FieldValue(form: CategoryFormData, field: CategoryField): string {
    match field
    case CategoryNameField => form.categoryName
    case SubcategoryNameField => form.subcategoryName
  }

  /** `handleChange`: `{ ...formData, [name]: value }`. */
  function HandleChange(form: CategoryFormData, field: CategoryField, value: string): (f: CategoryFormData)
    ensures FieldValue(f, field) == value
    ensures forall other :: other != field ==> FieldValue(f, other) == FieldValue(form, other)
  {
    match field
    case CategoryNameField => form.(categoryName := value)
    case SubcategoryNameField => form.(subcategoryName := value)
  }

  /** Typing a value and then the field's old value restores the form. */
  lemma HandleChangeUndo(form: CategoryFormData, field: CategoryField, value: string)
    ensures HandleChange(HandleChange(form, field, value), field, FieldValue(form, field)) == form
  {
  }

  /** What the page shows besides the table. */
  datatype CategoryPageState = CategoryPageState(form: CategoryFormData, success: bool, error: string)

  const CreateFailedMessage := "Failed to create category. Please try again."

  /** `handleSubmit`, with the outcome of the POST as `posted`: success clears the form,
      failure keeps it and sets the message. */
  function HandleSubmit(page: CategoryPageState, posted: bool): (p: CategoryPageState)
    ensures posted ==> p.success && p.error == "" && p.form == EmptyCategoryForm
    ensures !posted ==> !p.success && p.error == CreateFailedMessage && p.form == page.form
  {
    if posted then CategoryPageState(EmptyCategoryForm, true, "")
    else CategoryPageState(page.form, false, CreateFailedMessage)
  }
}
