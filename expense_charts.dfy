/** `processChartData` of the expenses tab (src/components/Dashboard/ExpensesTab.js): the
    monthly summary rows are folded, in one pass, into spending per month and user, spending
    per category, the total spend and the set of month labels; the burn rate and the two
    charts are then read off those objects. */
module ExpenseCharts {
  import opened JsValues
  import opened Dicts

  /** The month label `${year}-${mm}`, kept as the pair it is printed from. */
  datatype MonthKey = MonthKey(year: int, month: int)

  /** One row of the monthly summary; amounts are integral currency units. */
  datatype SummaryItem = SummaryItem(year: int, month: int, user: Name, category: Name, totalAmount: int)

  /** A user or category name. The fold only compares names for equality and uses them
      as object keys. */
  datatype Name = Name(text: string)

  function Label(item: SummaryItem): MonthKey {
    MonthKey(item.year, item.month)
  }

  /** One bar series: a user, their spend in each month, and the red component of its colour. */
  datatype Dataset = Dataset(series: Name, data: seq<int>, red: int)

  datatype BarChart = BarChart(labels: seq<MonthKey>, datasets: seq<Dataset>)

  datatype CategoryChart = CategoryChart(title: string, labels: seq<Name>, data: seq<int>)

  /** Everything `processChartData` sets. A chart is None when it is not set, which
      happens exactly when the corresponding object has no keys. */
  datatype ChartSummary = ChartSummary(
    totalSpend: int,
    burnRate: real,
    monthChart: Option<BarChart>,
    categoryChart: Option<CategoryChart>)

  const CategorySpendLabel := "Category Spend"

  /** `rgba(${(idx + 1) * 40 % 255}, 99, 132, 0.5)`: the red component of series `idx`. */
  function SeriesRed(idx: nat): (r: int)
    ensures 0 <= r < 255
  {
    (idx + 1) * 40 % 255
  }

  // ---- Reference definitions over the rows, each unfolding on the last row ----

  /** The month label of every row, in row order. */
  function Labels(items: seq<SummaryItem>): (r: seq<MonthKey>)
    ensures |r| == |items|
  {
    if items == [] then [] else Labels(items[..|items| - 1]) + [Label(items[|items| - 1])]
  }

  lemma {:induction false} LabelsAt(items: seq<SummaryItem>, j: nat)
    requires j < |items|
    ensures Labels(items)[j] == Label(items[j])
  {
    if j < |items| - 1 {
      LabelsAt(items[..|items| - 1], j);
    }
  }

  /** The users of the rows labelled `m`, in row order. */
  function UsersOf(items: seq<SummaryItem>, m: MonthKey): seq<Name> {
    if items == [] then []
    else
      var last := items[|items| - 1];
      UsersOf(items[..|items| - 1], m) + (if Label(last) == m then [last.user] else [])
  }

  /** The spend of user `u` in month `m`. */
  function UserMonthSum(items: seq<SummaryItem>, m: MonthKey, u: Name): int {
    if items == [] then 0
    else
      var last := items[|items| - 1];
      UserMonthSum(items[..|items| - 1], m, u) + (if Label(last) == m && last.user == u then last.totalAmount else 0)
  }

  /** The category of every row, in row order. */
  function Categories(items: seq<SummaryItem>): (r: seq<Name>)
    ensures |r| == |items|
  {
    if items == [] then [] else Categories(items[..|items| - 1]) + [items[|items| - 1].category]
  }

  /** The spend in category `c`. */
  function CategorySum(items: seq<SummaryItem>, c: Name): int {
    if items == [] then 0
    else
      var last := items[|items| - 1];
      CategorySum(items[..|items| - 1], c) + (if last.category == c then last.totalAmount else 0)
  }

  /** The spend over all rows. */
  function Total(items: seq<SummaryItem>): int {
    if items == [] then 0 else Total(items[..|items| - 1]) + items[|items| - 1].totalAmount
  }

  /** The spend of user `u` in each of the months `labels`. */
  function RowSeries(items: seq<SummaryItem>, labels: seq<MonthKey>, u: Name): seq<int> {
    seq(|labels|, j requires 0 <= j < |labels| => UserMonthSum(items, labels[j], u))
  }

  /** One series per user, in the given order. */
  function RowDatasets(items: seq<SummaryItem>, labels: seq<MonthKey>, users: seq<Name>): seq<Dataset> {
    seq(|users|, idx requires 0 <= idx < |users| => Dataset(users[idx], RowSeries(items, labels, users[idx]), SeriesRed(idx)))
  }

  /** The spend in each of the categories `cats`. */
  function CategoryTotals(items: seq<SummaryItem>, cats: seq<Name>): seq<int> {
    seq(|cats|, j requires 0 <= j < |cats| => CategorySum(items, cats[j]))
  }

  /** There is a first label exactly when there is a row. */
  lemma LabelsNonEmpty(items: seq<SummaryItem>)
    ensures |Dedup(Labels(items))| == 0 <==> items == []
    ensures |Dedup(Categories(items))| == 0 <==> items == []
  {
    if items != [] {
      assert Labels(items)[0] in Labels(items);
      assert Categories(items)[0] in Categories(items);
    }
  }

  /** The bar chart the rows call for: month labels in order of first appearance, one
      series per user of the first month; None when there are no rows. */
  function MonthChartFor(items: seq<SummaryItem>): (r: Option<BarChart>)
    ensures r.None? <==> items == []
    ensures r.Some? ==> Distinct(r.value.labels) && forall m :: m in r.value.labels <==> m in Labels(items)
    ensures r.Some? ==> forall d :: d in r.value.datasets ==> |d.data| == |r.value.labels|
  {
    LabelsNonEmpty(items);
    var labels := Dedup(Labels(items));
    if |labels| == 0 then None
    else Some(BarChart(labels, RowDatasets(items, labels, Dedup(UsersOf(items, labels[0])))))
  }

  /** The series are exactly the users of the first month, each once and in order of first
      appearance there; a user's value in a month where they have no row is 0. */
  lemma MonthChartSeries(items: seq<SummaryItem>, idx: nat, j: nat)
    requires items != []
    ensures var c := MonthChartFor(items).value;
            var users := Dedup(UsersOf(items, c.labels[0]));
            |c.datasets| == |users| && Distinct(users)
            && (idx < |users| && j < |c.labels| ==>
                  c.datasets[idx].series == users[idx] && users[idx] in UsersOf(items, c.labels[0])
                  && c.datasets[idx].data[j] == UserMonthSum(items, c.labels[j], users[idx])
                  && (users[idx] !in UsersOf(items, c.labels[j]) ==> c.datasets[idx].data[j] == 0))
  {
    var c := MonthChartFor(items).value;
    var users := Dedup(UsersOf(items, c.labels[0]));
    if idx < |users| && j < |c.labels| && users[idx] !in UsersOf(items, c.labels[j]) {
      UserMonthSumAbsent(items, c.labels[j], users[idx]);
    }
  }

  /** The category chart the rows call for: categories in order of first appearance with
      their spend; None when there are no rows. */
  function CategoryChartFor(items: seq<SummaryItem>): (r: Option<CategoryChart>)
    ensures r.None? <==> items == []
    ensures r.Some? ==> Distinct(r.value.labels) && |r.value.data| == |r.value.labels|
    ensures r.Some? ==> forall c :: c in r.value.labels <==> c in Categories(items)
    ensures r.Some? ==> Sum(r.value.data) == Total(items)
  {
    LabelsNonEmpty(items);
    var cats := Dedup(Categories(items));
    CategorySpendSum(items);
    CategoryTotalsSum(items, cats);
    if |cats| == 0 then None else Some(CategoryChart(CategorySpendLabel, cats, CategoryTotals(items, cats)))
  }

  /** `totalSpendAmount / (monthCount.size || 1)`. */
  function BurnRate(total: int, months: nat): (r: real)
    ensures months > 0 ==> r * months as real == total as real
    ensures months == 0 ==> r == total as real
  {
    var parts := if months == 0 then 1 else months;
    SpreadBack(total, parts);
    total as real / parts as real
  }

  /** A share of `total` over `n` parts, times `n`, is `total` again. */
  lemma SpreadBack(total: int, n: nat)
    requires n > 0
    ensures total as real / n as real * n as real == total as real
  {
  }

  /** What the summary should show: the total, the total spread evenly over the distinct
      months (BurnRate states the spread), and the two charts. */
  function ChartFor(items: seq<SummaryItem>): (r: ChartSummary)
    ensures items == [] ==> r.totalSpend == 0 && r.burnRate == 0.0
  {
    ChartSummary(Total(items), BurnRate(Total(items), |Dedup(Labels(items))|), MonthChartFor(items), CategoryChartFor(items))
  }

  /** The chart's values, added up, are the sum of the spend per category. */
  lemma {:induction false} CategoryTotalsSum(items: seq<SummaryItem>, cats: seq<Name>)
    ensures Sum(CategoryTotals(items, cats)) == SumBy(cats, c => CategorySum(items, c))
  {
    if cats != [] {
      var p := cats[..|cats| - 1];
      CategoryTotalsSum(items, p);
      var ts := CategoryTotals(items, cats);
      assert ts[..|ts| - 1] == CategoryTotals(items, p);
    }
  }

  /** Every row is counted in exactly one category, so the spend per category adds up to
      the total spend. */
  lemma {:induction false} CategorySpendSum(items: seq<SummaryItem>)
    ensures SumBy(Dedup(Categories(items)), c => CategorySum(items, c)) == Total(items)
  {
    if items != [] {
      var i := |items| - 1;
      var p, item := items[..i], items[i];
      CategorySpendSum(p);
      assert items[..i + 1] == items;
      RowsSnoc(items, i);
      DedupSnoc(Categories(p), item.category);
      var f := c => CategorySum(p, c);
      var g := c => CategorySum(items, c);
      forall c ensures g(c) == f(c) + (if c == item.category then item.totalAmount else 0) {
        CategorySumSnoc(items, i, c);
      }
      var before := Dedup(Categories(p));
      if item.category in before {
        SumByBump(before, f, g, item.category, item.totalAmount);
      } else {
        CategorySumAbsent(p, item.category);
        SumByCongruent(before, f, g);
        assert (before + [item.category])[..|before|] == before;
      }
    }
  }

  // ---- Facts about one more row: the prefix `rows[..i + 1]` against `rows[..i]` ----

  lemma {:induction false} RowsSnoc(rows: seq<SummaryItem>, i: nat)
    requires i < |rows|
    ensures Labels(rows[..i + 1]) == Labels(rows[..i]) + [Label(rows[i])]
    ensures Categories(rows[..i + 1]) == Categories(rows[..i]) + [rows[i].category]
    ensures Total(rows[..i + 1]) == Total(rows[..i]) + rows[i].totalAmount
  {
    assert rows[..i + 1][..i] == rows[..i];
  }

  lemma {:induction false} UsersOfSnoc(rows: seq<SummaryItem>, i: nat, m: MonthKey)
    requires i < |rows|
    ensures UsersOf(rows[..i + 1], m) == UsersOf(rows[..i], m) + (if Label(rows[i]) == m then [rows[i].user] else [])
  {
    assert rows[..i + 1][..i] == rows[..i];
  }

  lemma {:induction false} UserMonthSumSnoc(rows: seq<SummaryItem>, i: nat, m: MonthKey, u: Name)
    requires i < |rows|
    ensures UserMonthSum(rows[..i + 1], m, u) ==
              UserMonthSum(rows[..i], m, u) + (if Label(rows[i]) == m && rows[i].user == u then rows[i].totalAmount else 0)
  {
    assert rows[..i + 1][..i] == rows[..i];
  }

  lemma {:induction false} CategorySumSnoc(rows: seq<SummaryItem>, i: nat, c: Name)
    requires i < |rows|
    ensures CategorySum(rows[..i + 1], c) == CategorySum(rows[..i], c) + (if rows[i].category == c then rows[i].totalAmount else 0)
  {
    assert rows[..i + 1][..i] == rows[..i];
  }

  /** A month no row carries has no users. */
  lemma {:induction false} UsersOfAbsent(items: seq<SummaryItem>, m: MonthKey)
    requires m !in Labels(items)
    ensures UsersOf(items, m) == []
  {
    if items != [] {
      UsersOfAbsent(items[..|items| - 1], m);
    }
  }

  /** A user with no row in month `m` spent nothing there. */
  lemma {:induction false} UserMonthSumAbsent(items: seq<SummaryItem>, m: MonthKey, u: Name)
    requires u !in UsersOf(items, m)
    ensures UserMonthSum(items, m, u) == 0
  {
    if items != [] {
      UserMonthSumAbsent(items[..|items| - 1], m, u);
    }
  }

  /** A category no row carries has spent nothing. */
  lemma {:induction false} CategorySumAbsent(items: seq<SummaryItem>, c: Name)
    requires c !in Categories(items)
    ensures CategorySum(items, c) == 0
  {
    if items != [] {
      CategorySumAbsent(items[..|items| - 1], c);
    }
  }

  // ---- The loop invariant, one predicate per object ----

  /** `monthlySpending[m]` after the rows `done`: one key per user seen in `m`, holding that
      user's spend in `m`. */
  ghost predicate UserSumsSoFar(inner: Dict<Name, int>, done: seq<SummaryItem>, m: MonthKey) {
    && inner.Valid()
    && inner.keys == Dedup(UsersOf(done, m))
    && forall u :: u in inner.entries ==> inner.entries[u] == UserMonthSum(done, m, u)
  }

  /** Every per-month object is a well-formed object. */
  ghost predicate InnerValid(monthly: Dict<MonthKey, Dict<Name, int>>) {
    forall m :: m in monthly.entries ==> monthly.entries[m].Valid()
  }

  ghost predicate MonthlySoFar(monthly: Dict<MonthKey, Dict<Name, int>>, done: seq<SummaryItem>) {
    && monthly.Valid()
    && monthly.keys == Dedup(Labels(done))
    && InnerValid(monthly)
    && forall m :: m in monthly.entries ==> UserSumsSoFar(monthly.entries[m], done, m)
  }

  ghost predicate CategorySoFar(cats: Dict<Name, int>, done: seq<SummaryItem>) {
    && cats.Valid()
    && cats.keys == Dedup(Categories(done))
    && forall c :: c in cats.entries ==> cats.entries[c] == CategorySum(done, c)
  }

  /** `month[user] || 0`. */
  function ValueOr0(d: Dict<Name, int>, k: Name): int {
    if k in d.entries then d.entries[k] else 0
  }

  /** `monthlySpending[m]`, or the `{}` the loop body creates for a new month. */
  function MonthObject(monthly: Dict<MonthKey, Dict<Name, int>>, m: MonthKey): Dict<Name, int> {
    if m in monthly.entries then monthly.entries[m] else EmptyDict()
  }

  /** `if (!obj[user]) obj[user] = 0; obj[user] += amount`. */
  function AddToUser(inner: Dict<Name, int>, user: Name, amount: int): Dict<Name, int>
    requires inner.Valid()
  {
    inner.Put(user, ValueOr0(inner, user) + amount)
  }

  /** `monthlySpending[label]` after the loop body for `item`. */
  function NextUserSums(monthly: Dict<MonthKey, Dict<Name, int>>, item: SummaryItem): Dict<Name, int>
    requires InnerValid(monthly)
  {
    AddToUser(MonthObject(monthly, Label(item)), item.user, item.totalAmount)
  }

  /** `categorySpending[category]` after the loop body for `item`. */
  function NextCategorySum(cats: Dict<Name, int>, item: SummaryItem): int {
    (if item.category in cats.entries then cats.entries[item.category] else 0) + item.totalAmount
  }

  /** One user's entry after adding row `i`'s amount to its user's entry. */
  lemma {:induction false} UserSumAt(inner: Dict<Name, int>, rows: seq<SummaryItem>, i: nat, u: Name)
    requires i < |rows| && UserSumsSoFar(inner, rows[..i], Label(rows[i]))
    requires u in AddToUser(inner, rows[i].user, rows[i].totalAmount).entries
    ensures AddToUser(inner, rows[i].user, rows[i].totalAmount).entries[u] == UserMonthSum(rows[..i + 1], Label(rows[i]), u)
  {
    UserMonthSumSnoc(rows, i, Label(rows[i]), u);
    if u == rows[i].user && u !in inner.entries {
      UserMonthSumAbsent(rows[..i], Label(rows[i]), u);
    }
  }

  /** Adding row `i`'s amount to its user's entry of its month's object. */
  lemma {:induction false} UserSumsPut(inner: Dict<Name, int>, rows: seq<SummaryItem>, i: nat)
    requires i < |rows| && UserSumsSoFar(inner, rows[..i], Label(rows[i]))
    ensures UserSumsSoFar(AddToUser(inner, rows[i].user, rows[i].totalAmount), rows[..i + 1], Label(rows[i]))
  {
    var item, m := rows[i], Label(rows[i]);
    var next := AddToUser(inner, item.user, item.totalAmount);
    UsersOfSnoc(rows, i, m);
    DedupSnoc(UsersOf(rows[..i], m), item.user);
    forall u | u in next.entries ensures next.entries[u] == UserMonthSum(rows[..i + 1], m, u) {
      UserSumAt(inner, rows, i, u);
    }
  }

  /** The object of row `i`'s month after the loop body. */
  lemma {:induction false} MonthlyStepHere(monthly: Dict<MonthKey, Dict<Name, int>>, rows: seq<SummaryItem>, i: nat)
    requires i < |rows| && MonthlySoFar(monthly, rows[..i])
    ensures UserSumsSoFar(NextUserSums(monthly, rows[i]), rows[..i + 1], Label(rows[i]))
  {
    var m := Label(rows[i]);
    if m !in monthly.entries {
      UsersOfAbsent(rows[..i], m);
    }
    assert UserSumsSoFar(MonthObject(monthly, m), rows[..i], m);
    UserSumsPut(MonthObject(monthly, m), rows, i);
  }

  /** A row of another month leaves a month's object as it was. */
  lemma {:induction false} MonthlyStepOther(inner: Dict<Name, int>, rows: seq<SummaryItem>, i: nat, m: MonthKey)
    requires i < |rows| && UserSumsSoFar(inner, rows[..i], m) && m != Label(rows[i])
    ensures UserSumsSoFar(inner, rows[..i + 1], m)
  {
    UsersOfSnoc(rows, i, m);
    assert UsersOf(rows[..i + 1], m) == UsersOf(rows[..i], m);
    forall u | u in inner.entries ensures inner.entries[u] == UserMonthSum(rows[..i + 1], m, u) {
      UserMonthSumSnoc(rows, i, m, u);
    }
  }

  /** Any one month's object after the loop body. */
  lemma {:induction false} MonthlyStepEntry(monthly: Dict<MonthKey, Dict<Name, int>>, rows: seq<SummaryItem>, i: nat,
                                            inner: Dict<Name, int>, m: MonthKey)
    requires i < |rows| && MonthlySoFar(monthly, rows[..i])
    requires inner == NextUserSums(monthly, rows[i])
    requires m in monthly.Put(Label(rows[i]), inner).entries
    ensures UserSumsSoFar(monthly.Put(Label(rows[i]), inner).entries[m], rows[..i + 1], m)
  {
    if m == Label(rows[i]) {
      MonthlyStepHere(monthly, rows, i);
    } else {
      MonthlyStepOther(monthly.entries[m], rows, i, m);
    }
  }

  lemma {:induction false} MonthlyStepKeys(monthly: Dict<MonthKey, Dict<Name, int>>, rows: seq<SummaryItem>, i: nat,
                                           inner: Dict<Name, int>)
    requires i < |rows| && MonthlySoFar(monthly, rows[..i])
    ensures monthly.Put(Label(rows[i]), inner).keys == Dedup(Labels(rows[..i + 1]))
  {
    RowsSnoc(rows, i);
    DedupSnoc(Labels(rows[..i]), Label(rows[i]));
  }

  /** The month part of the loop body, at row `i`, keeps the invariant. */
  lemma {:induction false} MonthlyStep(monthly: Dict<MonthKey, Dict<Name, int>>, rows: seq<SummaryItem>, i: nat, inner: Dict<Name, int>)
    requires i < |rows| && MonthlySoFar(monthly, rows[..i])
    requires inner == NextUserSums(monthly, rows[i])
    ensures MonthlySoFar(monthly.Put(Label(rows[i]), inner), rows[..i + 1])
  {
    var next := monthly.Put(Label(rows[i]), inner);
    MonthlyStepKeys(monthly, rows, i, inner);
    forall m | m in next.entries ensures UserSumsSoFar(next.entries[m], rows[..i + 1], m) {
      MonthlyStepEntry(monthly, rows, i, inner, m);
    }
  }

  /** The category object's keys after row `i`. */
  lemma {:induction false} CategoryStepKeys(cats: Dict<Name, int>, rows: seq<SummaryItem>, i: nat, spent: int)
    requires i < |rows| && CategorySoFar(cats, rows[..i])
    ensures cats.Put(rows[i].category, spent).keys == Dedup(Categories(rows[..i + 1]))
  {
    RowsSnoc(rows, i);
    DedupSnoc(Categories(rows[..i]), rows[i].category);
  }

  /** One category's entry after row `i`. */
  lemma {:induction false} CategoryStepEntry(cats: Dict<Name, int>, rows: seq<SummaryItem>, i: nat, spent: int, c: Name)
    requires i < |rows| && CategorySoFar(cats, rows[..i])
    requires spent == NextCategorySum(cats, rows[i])
    requires c in cats.Put(rows[i].category, spent).entries
    ensures cats.Put(rows[i].category, spent).entries[c] == CategorySum(rows[..i + 1], c)
  {
    CategorySumSnoc(rows, i, c);
    if c == rows[i].category && c !in cats.entries {
      CategorySumAbsent(rows[..i], c);
    }
  }

  /** The category part of the loop body, at row `i`, keeps the invariant. */
  lemma {:induction false} CategoryStep(cats: Dict<Name, int>, rows: seq<SummaryItem>, i: nat, spent: int)
    requires i < |rows| && CategorySoFar(cats, rows[..i])
    requires spent == NextCategorySum(cats, rows[i])
    ensures CategorySoFar(cats.Put(rows[i].category, spent), rows[..i + 1])
  {
    var next := cats.Put(rows[i].category, spent);
    CategoryStepKeys(cats, rows, i, spent);
    forall c | c in next.entries ensures next.entries[c] == CategorySum(rows[..i + 1], c) {
      CategoryStepEntry(cats, rows, i, spent, c);
    }
  }

  /** The running total and the label set, at row `i`. */
  lemma {:induction false} ScalarStep(rows: seq<SummaryItem>, i: nat)
    requires i < |rows|
    ensures Total(rows[..i + 1]) == Total(rows[..i]) + rows[i].totalAmount
    ensures (set j | 0 <= j < i + 1 :: Label(rows[j])) == (set j | 0 <= j < i :: Label(rows[j])) + {Label(rows[i])}
  {
    RowsSnoc(rows, i);
  }

  // ---- Reading the charts off the objects ----

  /** `Object.values(monthlySpending).map(month => month[user] || 0)`. */
  function ObjectSeries(months: seq<Dict<Name, int>>, u: Name): seq<int> {
    seq(|months|, j requires 0 <= j < |months| => ValueOr0(months[j], u))
  }

  function ObjectDatasets(months: seq<Dict<Name, int>>, users: seq<Name>): seq<Dataset> {
    seq(|users|, idx requires 0 <= idx < |users| => Dataset(users[idx], ObjectSeries(months, users[idx]), SeriesRed(idx)))
  }

  /** The bar chart built from `monthlySpending`, when it has keys: one series per key of
      the first month's object. */
  function MonthChartOf(monthly: Dict<MonthKey, Dict<Name, int>>): Option<BarChart>
    requires monthly.Valid()
  {
    if |monthly.keys| == 0 then None
    else Some(BarChart(monthly.keys, ObjectDatasets(monthly.Values(), monthly.entries[monthly.keys[0]].keys)))
  }

  /** The category chart built from `categorySpending`, when it has keys. */
  function CategoryChartOf(cats: Dict<Name, int>): Option<CategoryChart>
    requires cats.Valid()
  {
    if |cats.keys| == 0 then None else Some(CategoryChart(CategorySpendLabel, cats.keys, cats.Values()))
  }

  /** Month `j` of a user's series read off the objects is that user's spend in month `j`. */
  lemma {:induction false} SeriesAt(monthly: Dict<MonthKey, Dict<Name, int>>, items: seq<SummaryItem>, u: Name, j: nat)
    requires MonthlySoFar(monthly, items) && j < |monthly.keys|
    ensures ValueOr0(monthly.entries[monthly.keys[j]], u) == UserMonthSum(items, monthly.keys[j], u)
  {
    var m := monthly.keys[j];
    assert m in monthly.entries;
    var inner := monthly.entries[m];
    assert UserSumsSoFar(inner, items, m);
    if u !in inner.entries {
      assert u !in inner.keys;
      UserMonthSumAbsent(items, m, u);
    }
  }

  lemma {:induction false} SeriesAgree(monthly: Dict<MonthKey, Dict<Name, int>>, items: seq<SummaryItem>, u: Name)
    requires MonthlySoFar(monthly, items)
    ensures ObjectSeries(monthly.Values(), u) == RowSeries(items, Dedup(Labels(items)), u)
  {
    var months := monthly.Values();
    var a, b := ObjectSeries(months, u), RowSeries(items, monthly.keys, u);
    forall j | 0 <= j < |monthly.keys| ensures a[j] == b[j] {
      SeriesAt(monthly, items, u, j);
    }
  }

  lemma {:induction false} DatasetsAgree(monthly: Dict<MonthKey, Dict<Name, int>>, items: seq<SummaryItem>, users: seq<Name>)
    requires MonthlySoFar(monthly, items)
    ensures ObjectDatasets(monthly.Values(), users) == RowDatasets(items, Dedup(Labels(items)), users)
  {
    var a, b := ObjectDatasets(monthly.Values(), users), RowDatasets(items, Dedup(Labels(items)), users);
    forall idx | 0 <= idx < |users| ensures a[idx] == b[idx] {
      SeriesAgree(monthly, items, users[idx]);
    }
  }

  lemma {:induction false} MonthChartMatches(monthly: Dict<MonthKey, Dict<Name, int>>, items: seq<SummaryItem>)
    requires MonthlySoFar(monthly, items)
    ensures MonthChartOf(monthly) == MonthChartFor(items)
  {
    if |monthly.keys| > 0 {
      assert monthly.keys[0] in monthly.entries;
      DatasetsAgree(monthly, items, monthly.entries[monthly.keys[0]].keys);
    }
  }

  /** Entry `j` of `Object.values(categorySpending)` is the spend in the `j`-th category. */
  lemma {:induction false} CategoryAt(cats: Dict<Name, int>, items: seq<SummaryItem>, j: nat)
    requires CategorySoFar(cats, items) && j < |cats.keys|
    ensures cats.Values()[j] == CategorySum(items, cats.keys[j])
  {
    assert cats.keys[j] in cats.entries;
  }

  lemma {:induction false} CategoryChartMatches(cats: Dict<Name, int>, items: seq<SummaryItem>)
    requires CategorySoFar(cats, items)
    ensures CategoryChartOf(cats) == CategoryChartFor(items)
  {
    if |cats.keys| > 0 {
      var vs, ts := cats.Values(), CategoryTotals(items, cats.keys);
      forall j | 0 <= j < |vs| ensures vs[j] == ts[j] {
        CategoryAt(cats, items, j);
      }
      assert vs == ts;
    }
  }

  /** A label is in the label set exactly when some row carries it. */
  lemma {:induction false} LabelsListed(items: seq<SummaryItem>, m: MonthKey)
    ensures m in Labels(items) <==> m in (set j | 0 <= j < |items| :: Label(items[j]))
  {
    if m in Labels(items) {
      var j :| 0 <= j < |items| && Labels(items)[j] == m;
      LabelsAt(items, j);
    }
    if m in (set j | 0 <= j < |items| :: Label(items[j])) {
      var j :| 0 <= j < |items| && Label(items[j]) == m;
      LabelsAt(items, j);
      assert Labels(items)[j] == m;
    }
  }

  /** The label set has one element per distinct label. */
  lemma {:induction false} MonthCountSize(items: seq<SummaryItem>, monthCount: set<MonthKey>)
    requires monthCount == (set j | 0 <= j < |items| :: Label(items[j]))
    ensures |monthCount| == |Dedup(Labels(items))|
  {
    var labels := Dedup(Labels(items));
    DistinctCardinality(labels);
    forall m ensures m in monthCount <==> m in labels {
      LabelsListed(items, m);
    }
    assert (set m | m in labels) == monthCount;
  }

  /** The summary once the loop has consumed every row. */
  lemma {:induction false} SummaryMatches(monthly: Dict<MonthKey, Dict<Name, int>>, cats: Dict<Name, int>,
                       total: int, monthCount: set<MonthKey>, items: seq<SummaryItem>)
    requires MonthlySoFar(monthly, items[..|items|])
    requires CategorySoFar(cats, items[..|items|])
    requires total == Total(items[..|items|])
    requires monthCount == (set j | 0 <= j < |items| :: Label(items[j]))
    ensures ChartSummary(total, BurnRate(total, |monthCount|), MonthChartOf(monthly), CategoryChartOf(cats)) == ChartFor(items)
  {
    assert items[..|items|] == items;
    MonthChartMatches(monthly, items);
    CategoryChartMatches(cats, items);
    MonthCountSize(items, monthCount);
  }

  /** `processChartData`: one pass over the rows updating the four accumulators, then the
      burn rate (`monthCount.size || 1` months) and the two charts. */
  method ProcessChartData(data: seq<SummaryItem>) returns (summary: ChartSummary)
    ensures summary == ChartFor(data)
  {
    var monthlySpending: Dict<MonthKey, Dict<Name, int>> := EmptyDict();
    var categorySpending: Dict<Name, int> := EmptyDict();
    var totalSpendAmount := 0;
    var monthCount: set<MonthKey> := {};
    var i := 0;
    while i < |data|
      invariant 0 <= i <= |data|
      invariant MonthlySoFar(monthlySpending, data[..i])
      invariant CategorySoFar(categorySpending, data[..i])
      invariant totalSpendAmount == Total(data[..i])
      invariant monthCount == (set j | 0 <= j < i :: Label(data[j]))
    {
      var item := data[i];
      var monthLabel := Label(item);
      monthCount := monthCount + {monthLabel};
      var inner := MonthObject(monthlySpending, monthLabel);
      inner := AddToUser(inner, item.user, item.totalAmount);
      var spent := NextCategorySum(categorySpending, item);
      MonthlyStep(monthlySpending, data, i, inner);
      CategoryStep(categorySpending, data, i, spent);
      ScalarStep(data, i);
      monthlySpending := monthlySpending.Put(monthLabel, inner);
      categorySpending := categorySpending.Put(item.category, spent);
      totalSpendAmount := totalSpendAmount + item.totalAmount;
      i := i + 1;
    }
    var burnRate := BurnRate(totalSpendAmount, |monthCount|);
    SummaryMatches(monthlySpending, categorySpending, totalSpendAmount, monthCount, data);
    summary := ChartSummary(totalSpendAmount, burnRate, MonthChartOf(monthlySpending), CategoryChartOf(categorySpending));
  }
}
