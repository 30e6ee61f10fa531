/** The expense taxonomy arrives as flat `{category_name, subcategory_name}` rows. The
    expenses tab and the expense page fold those rows, with the same `reduce`, into one
    entry per category holding that category's subcategories without repeats
    (src/components/Dashboard/ExpensesTab.js and src/pages/Expense.js). */
module CategoryGroups {
  import opened JsValues
  import opened Dicts

  datatype CategoryRow = CategoryRow(categoryName: string, subcategoryName: string)

  datatype CategoryGroup = CategoryGroup(categoryName: string, subcategories: seq<string>)

  /** The category name of every row, in row order. */
  function Names(rows: seq<CategoryRow>): (r: seq<string>)
    ensures |r| == |rows|
    ensures forall n :: n in r <==> exists row :: row in rows && row.categoryName == n
  {
    if rows == [] then []
    else
      var p := rows[..|rows| - 1];
      assert forall row :: row in rows <==> row in p || row == rows[|rows| - 1];
      Names(p) + [rows[|rows| - 1].categoryName]
  }

  /** The subcategory names paired with `name`, in row order, repeats kept. */
  function SubsOf(rows: seq<CategoryRow>, name: string): (r: seq<string>)
    ensures |r| <= |rows|
    ensures forall s :: s in r <==> CategoryRow(name, s) in rows
  {
    if rows == [] then []
    else
      var p := rows[..|rows| - 1];
      var last := rows[|rows| - 1];
      assert forall row :: row in rows <==> row in p || row == last;
      if last.categoryName == name then SubsOf(p, name) + [last.subcategoryName] else SubsOf(p, name)
  }

  /** A name no row carries has no subcategories. */
  lemma {:induction false} SubsOfAbsent(rows: seq<CategoryRow>, name: string)
    requires name !in Names(rows)
    ensures SubsOf(rows, name) == []
  {
    if rows != [] {
      var p := rows[..|rows| - 1];
      assert Names(rows) == Names(p) + [rows[|rows| - 1].categoryName];
      SubsOfAbsent(p, name);
    }
  }

  /** The loop invariant of the grouping: after the rows `done`, the object holds one entry
      per name seen, in order of first appearance, with that name's subcategories so far. */
  ghost predicate GroupedSoFar(acc: Dict<string, CategoryGroup>, done: seq<CategoryRow>) {
    && acc.Valid()
    && acc.keys == Dedup(Names(done))
    && forall k :: k in acc.entries ==> acc.entries[k] == CategoryGroup(k, Dedup(SubsOf(done, k)))
  }

  /** The next group stored for `row`: the existing one or a fresh one, with the
      subcategory pushed when it is not yet listed. */
  function NextGroup(acc: Dict<string, CategoryGroup>, row: CategoryRow): CategoryGroup {
    var group := if row.categoryName in acc.entries then acc.entries[row.categoryName]
                 else CategoryGroup(row.categoryName, []);
    if row.subcategoryName in group.subcategories then group
    else group.(subcategories := group.subcategories + [row.subcategoryName])
  }

  lemma NamesSnoc(done: seq<CategoryRow>, row: CategoryRow)
    ensures Names(done + [row]) == Names(done) + [row.categoryName]
  {
    assert (done + [row])[..|done + [row]| - 1] == done;
  }

  lemma SubsSnoc(done: seq<CategoryRow>, row: CategoryRow, k: string)
    ensures SubsOf(done + [row], k) ==
              if row.categoryName == k then SubsOf(done, k) + [row.subcategoryName] else SubsOf(done, k)
  {
    assert (done + [row])[..|done + [row]| - 1] == done;
  }


  lemma StepA(acc: Dict<string, CategoryGroup>, done: seq<CategoryRow>, row: CategoryRow)
    requires GroupedSoFar(acc, done)
    ensures acc.Put(row.categoryName, NextGroup(acc, row)).Valid()
  {
  }
  lemma StepB(acc: Dict<string, CategoryGroup>, done: seq<CategoryRow>, row: CategoryRow)
    requires GroupedSoFar(acc, done)
    ensures acc.Put(row.categoryName, NextGroup(acc, row)).keys == Dedup(Names(done + [row]))
  {
    NamesSnoc(done, row);
    DedupSnoc(Names(done), row.categoryName);
  }
  lemma StepC(acc: Dict<string, CategoryGroup>, done: seq<CategoryRow>, row: CategoryRow)
    requires GroupedSoFar(acc, done)
    ensures var next := acc.Put(row.categoryName, NextGroup(acc, row));
     next.entries[row.categoryName] == CategoryGroup(row.categoryName, Dedup(SubsOf(done + [row], row.categoryName)))
  {
    var name := row.categoryName;
    if name !in acc.entries {
      SubsOfAbsent(done, name);
    }
    SubsSnoc(done, row, name);
    DedupSnoc(SubsOf(done, name), row.subcategoryName);
  }
  lemma StepD(acc: Dict<string, CategoryGroup>, done: seq<CategoryRow>, row: CategoryRow)
    requires GroupedSoFar(acc, done)
    ensures var next := acc.Put(row.categoryName, NextGroup(acc, row));
      forall k :: k in next.entries && k != row.categoryName ==> next.entries[k] == CategoryGroup(k, Dedup(SubsOf(done + [row], k)))
  {
    var next := acc.Put(row.categoryName, NextGroup(acc, row));
    forall k | k in next.entries && k != row.categoryName
      ensures next.entries[k] == CategoryGroup(k, Dedup(SubsOf(done + [row], k)))
    {
      SubsSnoc(done, row, k);
    }
  }
  /** One pass of the loop body, at row `i`, keeps the invariant. */
  lemma GroupStep(acc: Dict<string, CategoryGroup>, rows: seq<CategoryRow>, i: nat, group: CategoryGroup)
    requires i < |rows| && GroupedSoFar(acc, rows[..i])
    requires group == NextGroup(acc, rows[i])
    ensures GroupedSoFar(acc.Put(rows[i].categoryName, group), rows[..i + 1])
  {
    var done, row := rows[..i], rows[i];
    StepA(acc, done, row);
    StepB(acc, done, row);
    StepC(acc, done, row);
    StepD(acc, done, row);
    PrefixSnoc(rows, i);
  }

  /** What the grouping produces: one group per distinct category name, in order of first
      appearance, each with its subcategory names in order of first appearance. */
  function Grouped(rows: seq<CategoryRow>): (g: seq<CategoryGroup>)
    ensures forall i, j :: 0 <= i < j < |g| ==> g[i].categoryName != g[j].categoryName
    ensures (set i | 0 <= i < |g| :: g[i].categoryName) == (set row | row in rows :: row.categoryName)
    ensures forall i :: 0 <= i < |g| ==> Distinct(g[i].subcategories)
    ensures forall i, s :: 0 <= i < |g| ==>
              (s in g[i].subcategories <==> CategoryRow(g[i].categoryName, s) in rows)
  {
    var names := Dedup(Names(rows));
    var g := seq(|names|, i requires 0 <= i < |names| => CategoryGroup(names[i], Dedup(SubsOf(rows, names[i]))));
    GroupNames(names, g);
    NamesListed(rows);
    g
  }

  /** Groups built one per name carry exactly those names. */
  lemma GroupNames(names: seq<string>, g: seq<CategoryGroup>)
    requires |g| == |names| && forall i :: 0 <= i < |g| ==> g[i].categoryName == names[i]
    ensures (set i | 0 <= i < |g| :: g[i].categoryName) == (set n | n in names)
  {
    forall n | n in names ensures n in (set i | 0 <= i < |g| :: g[i].categoryName) {
      var i :| 0 <= i < |names| && names[i] == n;
      assert g[i].categoryName == n;
    }
  }

  /** The distinct names of the rows are the names the rows carry. */
  lemma NamesListed(rows: seq<CategoryRow>)
    ensures (set n | n in Dedup(Names(rows))) == (set row | row in rows :: row.categoryName)
  {
  }

  /** Once every row is folded in, `Object.values` of the object is the grouping. */
  lemma GroupedValues(acc: Dict<string, CategoryGroup>, rows: seq<CategoryRow>)
    requires GroupedSoFar(acc, rows)
    ensures acc.Values() == Grouped(rows)
  {
    var vs := acc.Values();
    var g := Grouped(rows);
    assert |vs| == |g|;
    forall i | 0 <= i < |vs| ensures vs[i] == g[i] {
      assert acc.keys[i] in acc.entries;
    }
  }

  /** The `reduce` of `fetchCategories`: an object keyed by category name whose entries
      gain each subcategory the first time it is seen, then `Object.values`. */
  method GroupCategories(rows: seq<CategoryRow>) returns (groups: seq<CategoryGroup>)
    ensures groups == Grouped(rows)
  {
    var acc: Dict<string, CategoryGroup> := EmptyDict();
    var i := 0;
    while i < |rows|
      invariant 0 <= i <= |rows|
      invariant GroupedSoFar(acc, rows[..i])
    {
      var row := rows[i];
      var group := if row.categoryName in acc.entries then acc.entries[row.categoryName]
                   else CategoryGroup(row.categoryName, []);
      if row.subcategoryName !in group.subcategories {
        group := group.(subcategories := group.subcategories + [row.subcategoryName]);
      }
      GroupStep(acc, rows, i, group);
      acc := acc.Put(row.categoryName, group);
      i := i + 1;
    }
    assert rows[..|rows|] == rows;
    GroupedValues(acc, rows);
    groups := acc.Values();
  }

  /** `categories.find(cat => cat.category_name === name)`, then its subcategories or []. */
  function SubcategoriesFor(groups: seq<CategoryGroup>, name: string): (r: seq<string>)
    ensures (exists i :: 0 <= i < |groups| && groups[i].categoryName == name) ==>
              exists i :: 0 <= i < |groups| && groups[i].categoryName == name && r == groups[i].subcategories
                          && forall j :: 0 <= j < i ==> groups[j].categoryName != name
    ensures (forall i :: 0 <= i < |groups| ==> groups[i].categoryName != name) ==> r == []
  {
    if groups == [] then []
    else if groups[0].categoryName == name then groups[0].subcategories
    else
      var r := SubcategoriesFor(groups[1..], name);
      assert forall i :: 1 <= i < |groups| ==> groups[i] == groups[1..][i - 1];
      r
  }

  /** On the output of the grouping, the lookup returns exactly the subcategories paired
      with that name, without repeats. */
  lemma SubcategoriesForGrouped(rows: seq<CategoryRow>, name: string)
    ensures var r := SubcategoriesFor(Grouped(rows), name);
            Distinct(r) && forall s :: s in r <==> CategoryRow(name, s) in rows
  {
    var g := Grouped(rows);
    var listed := set row | row in rows :: row.categoryName;
    forall s | CategoryRow(name, s) in rows ensures name in listed {
      assert CategoryRow(name, s).categoryName == name;
    }
    if forall i :: 0 <= i < |g| ==> g[i].categoryName != name {
      assert name !in (set i | 0 <= i < |g| :: g[i].categoryName);
    }
  }
}
