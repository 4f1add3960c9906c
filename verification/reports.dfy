/** The five chart reports: totals per category and per month for one
    transaction type, and the monthly balance, income minus expenses.

    The program builds them with pandas over every stored transaction:
    `groupby(...).sum()` gives one row per key that occurs (keys in
    ascending order), `sort_values()` orders category totals ascending, and
    `income.subtract(expenses, fill_value=0)` aligns the two monthly series
    on the union of their months, reading a missing side as 0. */
module Reports {
  import opened Dates
  import opened Records
  import opened Sequences

  datatype CategoryTotal = CategoryTotal(category: string, total: real)
  datatype MonthTotal = MonthTotal(month: YearMonth, total: real)

  // ---------------------------------------------------------------- reference sums

  /** The sum of the amounts of the transactions of type `kind` naming `category`. */
  function CategorySum(txs: seq<Transaction>, kind: string, category: string): real
    decreases |txs|
  {
    if |txs| == 0 then 0.0
    else
      (if txs[0].transactionType == kind && txs[0].category == category then txs[0].amount else 0.0)
      + CategorySum(txs[1..], kind, category)
  }

  /** The sum of the amounts of the transactions of type `kind` in month `m`. */
  function MonthSum(txs: seq<Transaction>, kind: string, m: YearMonth): real
    decreases |txs|
  {
    if |txs| == 0 then 0.0
    else
      (if txs[0].transactionType == kind && MonthOf(txs[0].date) == m then txs[0].amount else 0.0)
      + MonthSum(txs[1..], kind, m)
  }

  /** The sum of the amounts of all transactions of type `kind`. */
  function KindSum(txs: seq<Transaction>, kind: string): real
    decreases |txs|
  {
    if |txs| == 0 then 0.0
    else (if txs[0].transactionType == kind then txs[0].amount else 0.0) + KindSum(txs[1..], kind)
  }

  predicate HasKind(txs: seq<Transaction>, kind: string) {
    exists i :: 0 <= i < |txs| && txs[i].transactionType == kind
  }

  // ---------------------------------------------------------------- by category

  function Total(g: CategoryTotal): real {
    g.total
  }

  /** The total a grouping holds for `category`, 0 when it has no such row. */
  function TotalFor(gs: seq<CategoryTotal>, category: string): real
    decreases |gs|
  {
    if |gs| == 0 then 0.0
    else if gs[0].category == category then gs[0].total
    else TotalFor(gs[1..], category)
  }

  predicate HasGroup(gs: seq<CategoryTotal>, category: string) {
    exists i :: 0 <= i < |gs| && gs[i].category == category
  }

  ghost predicate DistinctCategories(gs: seq<CategoryTotal>) {
    forall i, j :: 0 <= i < j < |gs| ==> gs[i].category != gs[j].category
  }

  lemma {:induction false} TotalForAt(gs: seq<CategoryTotal>, k: int)
    requires DistinctCategories(gs)
    requires 0 <= k < |gs|
    ensures TotalFor(gs, gs[k].category) == gs[k].total
    decreases |gs|
  {
    if k > 0 {
      TotalForAt(gs[1..], k - 1);
    }
  }

  lemma {:induction false} TotalForAbsent(gs: seq<CategoryTotal>, category: string)
    requires !HasGroup(gs, category)
    ensures TotalFor(gs, category) == 0.0
    decreases |gs|
  {
    if |gs| > 0 {
      assert !HasGroup(gs[1..], category) by {
        forall i | 0 <= i < |gs[1..]| ensures gs[1..][i].category != category {
          assert gs[1..][i] == gs[i + 1];
        }
      }
      TotalForAbsent(gs[1..], category);
    }
  }

  /** A grouping with one more row in front has that row's key and its own. */
  lemma HasGroupCons(h: CategoryTotal, rest: seq<CategoryTotal>, c: string)
    ensures HasGroup([h] + rest, c) <==> h.category == c || HasGroup(rest, c)
  {
    var r := [h] + rest;
    assert r[0] == h;
    if HasGroup(rest, c) {
      var j :| 0 <= j < |rest| && rest[j].category == c;
      assert r[j + 1].category == c;
    }
    if HasGroup(r, c) && h.category != c {
      var i :| 0 <= i < |r| && r[i].category == c;
      assert i > 0 && r[i] == rest[i - 1];
    }
  }

  /** Adds `amount` to the row for `category`, or appends a row for it. */
  function AddToCategory(gs: seq<CategoryTotal>, category: string, amount: real): (r: seq<CategoryTotal>)
    requires DistinctCategories(gs)
    ensures DistinctCategories(r)
    ensures forall c :: HasGroup(r, c) <==> HasGroup(gs, c) || c == category
    ensures forall c :: TotalFor(r, c) == TotalFor(gs, c) + (if c == category then amount else 0.0)
    ensures SumOf(r, Total) == SumOf(gs, Total) + amount
    decreases |gs|
  {
    if |gs| == 0 then
      assert SumOf([CategoryTotal(category, amount)], Total) == amount;
      [CategoryTotal(category, amount)]
    else
      assert gs == [gs[0]] + gs[1..];
      if gs[0].category == category then
        assert !HasGroup(gs[1..], category) by {
          forall i | 0 <= i < |gs[1..]| ensures gs[1..][i].category != category {
            assert gs[1..][i] == gs[i + 1];
          }
        }
        TotalForAbsent(gs[1..], category);
        var r := [CategoryTotal(category, gs[0].total + amount)] + gs[1..];
        assert r[1..] == gs[1..];
        assert forall c :: HasGroup(r, c) <==> HasGroup(gs, c) by {
          forall c ensures HasGroup(r, c) <==> HasGroup(gs, c) {
            HasGroupCons(r[0], gs[1..], c);
            HasGroupCons(gs[0], gs[1..], c);
          }
        }
        r
      else
        var rest := AddToCategory(gs[1..], category, amount);
        var r := [gs[0]] + rest;
        assert r[1..] == rest;
        assert forall c :: HasGroup(r, c) <==> HasGroup(gs, c) || c == category by {
          forall c ensures HasGroup(r, c) <==> HasGroup(gs, c) || c == category {
            HasGroupCons(gs[0], rest, c);
            HasGroupCons(gs[0], gs[1..], c);
          }
        }
        assert DistinctCategories(r) by {
          forall j | 0 < j < |r| ensures r[0].category != r[j].category {
            var c := r[j].category;
            assert HasGroup(rest, c);
            if c != category {
              var k :| 0 <= k < |gs[1..]| && gs[1..][k].category == c;
              assert gs[k + 1].category == c;
            }
          }
        }
        r
  }

  /** `groupby('category')['amount'].sum()` over the transactions of type
      `kind`: one row per category that occurs, holding its sum. */
  function GroupByCategory(txs: seq<Transaction>, kind: string): (r: seq<CategoryTotal>)
    ensures DistinctCategories(r)
    ensures forall c :: HasGroup(r, c) <==> exists i :: 0 <= i < |txs| && txs[i].transactionType == kind && txs[i].category == c
    ensures forall c :: TotalFor(r, c) == CategorySum(txs, kind, c)
    ensures SumOf(r, Total) == KindSum(txs, kind)
    decreases |txs|
  {
    if |txs| == 0 then []
    else
      var rest := GroupByCategory(txs[1..], kind);
      assert forall i :: 1 <= i < |txs| ==> txs[i] == txs[1..][i - 1];
      if txs[0].transactionType == kind then AddToCategory(rest, txs[0].category, txs[0].amount)
      else rest
  }

  predicate TotalLe(a: CategoryTotal, b: CategoryTotal) {
    a.total <= b.total
  }

  lemma TotalLeIsTotalPreorder()
    ensures TotalPreorder(TotalLe)
  {
  }

  /** A reordering of a grouping keeps its rows, their keys and their totals. */
  lemma PermutedGrouping(txs: seq<Transaction>, kind: string, g: seq<CategoryTotal>, r: seq<CategoryTotal>)
    requires g == GroupByCategory(txs, kind)
    requires multiset(r) == multiset(g)
    ensures DistinctCategories(r)
    ensures forall c :: HasGroup(r, c) <==> HasGroup(g, c)
    ensures forall i :: 0 <= i < |r| ==> r[i].total == CategorySum(txs, kind, r[i].category)
    ensures |r| == |g|
  {
    assert forall x :: x in r <==> x in g by {
      forall x ensures x in r <==> x in g {
        assert x in r <==> x in multiset(r);
        assert x in g <==> x in multiset(g);
      }
    }
    assert Distinct(g);
    DistinctPermutation(r, g);
    forall i, j | 0 <= i < j < |r| ensures r[i].category != r[j].category {
      assert r[i] in g && r[j] in g;
      var a :| 0 <= a < |g| && g[a] == r[i];
      var b :| 0 <= b < |g| && g[b] == r[j];
      assert a != b;
    }
    forall i | 0 <= i < |r| ensures r[i].total == CategorySum(txs, kind, r[i].category) {
      assert r[i] in g;
      var a :| 0 <= a < |g| && g[a] == r[i];
      TotalForAt(g, a);
    }
    forall c ensures HasGroup(r, c) <==> HasGroup(g, c) {
      if HasGroup(g, c) {
        var a :| 0 <= a < |g| && g[a].category == c;
        assert g[a] in r;
      }
      if HasGroup(r, c) {
        var a :| 0 <= a < |r| && r[a].category == c;
        assert r[a] in g;
      }
    }
    assert |r| == |multiset(r)| == |multiset(g)| == |g|;
  }

  /** The "by category" report for type `kind`: one bar per category that
      some transaction of that type names, each holding that category's sum,
      ascending by sum (equal sums in no particular order). */
  function CategoryReport(txs: seq<Transaction>, kind: string): (r: seq<CategoryTotal>)
    ensures SortedBy(r, TotalLe)
    ensures DistinctCategories(r)
    ensures forall c :: HasGroup(r, c) <==> exists i :: 0 <= i < |txs| && txs[i].transactionType == kind && txs[i].category == c
    ensures forall i :: 0 <= i < |r| ==> r[i].total == CategorySum(txs, kind, r[i].category)
    ensures |r| == 0 <==> !HasKind(txs, kind)
  {
    var g := GroupByCategory(txs, kind);
    TotalLeIsTotalPreorder();
    var r := Sort(g, TotalLe);
    PermutedGrouping(txs, kind, g, r);
    assert |g| > 0 ==> HasGroup(g, g[0].category);
    assert HasKind(txs, kind) ==> HasGroup(g, txs[KindWitness(txs, kind)].category);
    r
  }

  /** The position of some transaction of type `kind`. */
  function KindWitness(txs: seq<Transaction>, kind: string): (i: int)
    requires HasKind(txs, kind)
    ensures 0 <= i < |txs| && txs[i].transactionType == kind
    decreases |txs|
  {
    if txs[0].transactionType == kind then 0
    else
      assert HasKind(txs[1..], kind) by {
        var i :| 0 <= i < |txs| && txs[i].transactionType == kind;
        assert txs[1..][i - 1] == txs[i];
      }
      1 + KindWitness(txs[1..], kind)
  }

  /** The bars of a category report add up to the total of that type: grouping
      and sorting neither lose nor invent an amount. */
  lemma CategoryReportConservesTotal(txs: seq<Transaction>, kind: string)
    ensures SumOf(CategoryReport(txs, kind), Total) == KindSum(txs, kind)
  {
    var g := GroupByCategory(txs, kind);
    TotalLeIsTotalPreorder();
    SumOfPermutation(CategoryReport(txs, kind), g, Total);
  }

  // ---------------------------------------------------------------- by month

  function MonthAmount(g: MonthTotal): real {
    g.total
  }

  /** Months strictly ascending, as `groupby('month')` orders its keys. */
  ghost predicate Ascending(ms: seq<MonthTotal>) {
    forall i, j :: 0 <= i < j < |ms| ==> MonthBefore(ms[i].month, ms[j].month)
  }

  predicate HasMonth(ms: seq<MonthTotal>, m: YearMonth)
    decreases |ms|
  {
    |ms| > 0 && (ms[0].month == m || HasMonth(ms[1..], m))
  }

  /** The total a series holds for month `m`, 0 when it has no such row. */
  function MonthTotalFor(ms: seq<MonthTotal>, m: YearMonth): real
    decreases |ms|
  {
    if |ms| == 0 then 0.0
    else if ms[0].month == m then ms[0].total
    else MonthTotalFor(ms[1..], m)
  }

  lemma {:induction false} HasMonthAt(ms: seq<MonthTotal>, k: int)
    requires 0 <= k < |ms|
    ensures HasMonth(ms, ms[k].month)
    decreases k
  {
    if k > 0 {
      HasMonthAt(ms[1..], k - 1);
    }
  }

  lemma {:induction false} MonthTotalForAbsent(ms: seq<MonthTotal>, m: YearMonth)
    requires !HasMonth(ms, m)
    ensures MonthTotalFor(ms, m) == 0.0
    decreases |ms|
  {
    if |ms| > 0 {
      MonthTotalForAbsent(ms[1..], m);
    }
  }

  /** In an ascending series every month after the first lies after it. */
  lemma {:induction false} AscendingTail(ms: seq<MonthTotal>, m: YearMonth)
    requires Ascending(ms) && |ms| > 0
    ensures Ascending(ms[1..])
    ensures HasMonth(ms[1..], m) ==> MonthBefore(ms[0].month, m)
    ensures MonthBefore(m, ms[0].month) ==> !HasMonth(ms, m)
    decreases |ms|
  {
    if |ms| > 1 {
      AscendingTail(ms[1..], m);
    }
  }

  lemma PrependAscending(h: MonthTotal, rest: seq<MonthTotal>)
    requires Ascending(rest)
    requires forall x :: HasMonth(rest, x) ==> MonthBefore(h.month, x)
    ensures Ascending([h] + rest)
  {
    forall j | 0 <= j < |rest| ensures MonthBefore(h.month, rest[j].month) {
      HasMonthAt(rest, j);
    }
  }

  /** Adds `amount` to the row for month `m`, or inserts a row for it in order. */
  function AddToMonth(ms: seq<MonthTotal>, m: YearMonth, amount: real): (r: seq<MonthTotal>)
    requires Ascending(ms)
    ensures Ascending(r)
    ensures forall x :: HasMonth(r, x) <==> HasMonth(ms, x) || x == m
    ensures forall x :: MonthTotalFor(r, x) == MonthTotalFor(ms, x) + (if x == m then amount else 0.0)
    ensures SumOf(r, MonthAmount) == SumOf(ms, MonthAmount) + amount
    decreases |ms|
  {
    if |ms| == 0 then [MonthTotal(m, amount)]
    else if ms[0].month == m then
      AscendingTail(ms, m);
      var r := [MonthTotal(m, ms[0].total + amount)] + ms[1..];
      assert r[1..] == ms[1..];
      forall x | HasMonth(ms[1..], x) ensures MonthBefore(m, x) {
        AscendingTail(ms, x);
      }
      PrependAscending(r[0], ms[1..]);
      r
    else if MonthBefore(m, ms[0].month) then
      AscendingTail(ms, m);
      MonthTotalForAbsent(ms, m);
      var r := [MonthTotal(m, amount)] + ms;
      assert r[1..] == ms;
      forall x | HasMonth(ms, x) ensures MonthBefore(m, x) {
        AscendingTail(ms, x);
      }
      PrependAscending(r[0], ms);
      r
    else
      AscendingTail(ms, m);
      var rest := AddToMonth(ms[1..], m, amount);
      var r := [ms[0]] + rest;
      assert r[1..] == rest;
      forall x | HasMonth(rest, x) ensures MonthBefore(ms[0].month, x) {
        AscendingTail(ms, x);
      }
      PrependAscending(ms[0], rest);
      r
  }

  /** `groupby('month')['amount'].sum()` over the transactions of type `kind`:
      one row per month that occurs, ascending, holding its sum. */
  function MonthlyTotals(txs: seq<Transaction>, kind: string): (r: seq<MonthTotal>)
    ensures Ascending(r)
    ensures forall m :: HasMonth(r, m) <==> exists i :: 0 <= i < |txs| && txs[i].transactionType == kind && MonthOf(txs[i].date) == m
    ensures forall m :: MonthTotalFor(r, m) == MonthSum(txs, kind, m)
    ensures SumOf(r, MonthAmount) == KindSum(txs, kind)
    decreases |txs|
  {
    if |txs| == 0 then []
    else
      var rest := MonthlyTotals(txs[1..], kind);
      assert forall i :: 1 <= i < |txs| ==> txs[i] == txs[1..][i - 1];
      if txs[0].transactionType == kind then AddToMonth(rest, MonthOf(txs[0].date), txs[0].amount)
      else rest
  }

  /** `income.subtract(expenses, fill_value=0)`: the union of both series'
      months, ascending, each holding income minus expenses with a missing
      side read as 0. */
  function Subtract(inc: seq<MonthTotal>, exp: seq<MonthTotal>): (r: seq<MonthTotal>)
    requires Ascending(inc) && Ascending(exp)
    ensures Ascending(r)
    ensures forall m :: HasMonth(r, m) <==> HasMonth(inc, m) || HasMonth(exp, m)
    ensures forall m :: MonthTotalFor(r, m) == MonthTotalFor(inc, m) - MonthTotalFor(exp, m)
    decreases |inc| + |exp|
  {
    if |inc| == 0 && |exp| == 0 then []
    else if |exp| == 0 || (|inc| > 0 && MonthBefore(inc[0].month, exp[0].month)) then
      var h := inc[0];
      AscendingTail(inc, h.month);
      var rest := Subtract(inc[1..], exp);
      forall x | HasMonth(rest, x) ensures MonthBefore(h.month, x) {
        AscendingTail(inc, x);
        if |exp| > 0 && HasMonth(exp, x) {
          AscendingTail(exp, x);
          if x != exp[0].month {
            assert HasMonth(exp[1..], x);
          }
        }
      }
      assert MonthTotalFor(exp, h.month) == 0.0 by {
        if |exp| > 0 {
          AscendingTail(exp, h.month);
        }
        MonthTotalForAbsent(exp, h.month);
      }
      PrependAscending(h, rest);
      [h] + rest
    else if |inc| == 0 || MonthBefore(exp[0].month, inc[0].month) then
      var h := MonthTotal(exp[0].month, -exp[0].total);
      AscendingTail(exp, h.month);
      var rest := Subtract(inc, exp[1..]);
      forall x | HasMonth(rest, x) ensures MonthBefore(h.month, x) {
        AscendingTail(exp, x);
        if |inc| > 0 && HasMonth(inc, x) {
          AscendingTail(inc, x);
          if x != inc[0].month {
            assert HasMonth(inc[1..], x);
          }
        }
      }
      assert MonthTotalFor(inc, h.month) == 0.0 by {
        if |inc| > 0 {
          AscendingTail(inc, h.month);
        }
        MonthTotalForAbsent(inc, h.month);
      }
      PrependAscending(h, rest);
      [h] + rest
    else
      var h := MonthTotal(inc[0].month, inc[0].total - exp[0].total);
      AscendingTail(inc, h.month);
      AscendingTail(exp, h.month);
      var rest := Subtract(inc[1..], exp[1..]);
      forall x | HasMonth(rest, x) ensures MonthBefore(h.month, x) {
        AscendingTail(inc, x);
        AscendingTail(exp, x);
      }
      PrependAscending(h, rest);
      [h] + rest
  }

  /** The balance report: for every month with an income or an expense,
      the month's income minus its expenses. */
  function Balance(txs: seq<Transaction>): (r: seq<MonthTotal>)
    ensures Ascending(r)
    ensures forall m :: HasMonth(r, m) <==>
              exists i :: 0 <= i < |txs| && MonthOf(txs[i].date) == m
                          && (txs[i].transactionType == INCOME || txs[i].transactionType == EXPENSE)
    ensures forall m :: MonthTotalFor(r, m) == MonthSum(txs, INCOME, m) - MonthSum(txs, EXPENSE, m)
  {
    Subtract(MonthlyTotals(txs, INCOME), MonthlyTotals(txs, EXPENSE))
  }

  /** The signed amount the transaction list shows: `+` for income, `-` for
      everything else. */
  function ShownAmount(t: Transaction): real {
    if t.transactionType == INCOME then t.amount else -t.amount
  }

  /** The sum of the signed amounts the list shows for month `m`. */
  function ShownMonthNet(txs: seq<Transaction>, m: YearMonth): real
    decreases |txs|
  {
    if |txs| == 0 then 0.0
    else (if MonthOf(txs[0].date) == m then ShownAmount(txs[0]) else 0.0) + ShownMonthNet(txs[1..], m)
  }

  /** When every transaction carries one of the two radio values, a month's
      balance bar is the sum of the signed amounts the list shows for it. */
  lemma {:induction false} BalanceIsShownNet(txs: seq<Transaction>, m: YearMonth)
    requires forall i :: 0 <= i < |txs| ==> txs[i].transactionType == INCOME || txs[i].transactionType == EXPENSE
    ensures MonthTotalFor(Balance(txs), m) == ShownMonthNet(txs, m)
  {
    MonthSumsAreShownNet(txs, m);
  }

  lemma {:induction false} MonthSumsAreShownNet(txs: seq<Transaction>, m: YearMonth)
    requires forall i :: 0 <= i < |txs| ==> txs[i].transactionType == INCOME || txs[i].transactionType == EXPENSE
    ensures MonthSum(txs, INCOME, m) - MonthSum(txs, EXPENSE, m) == ShownMonthNet(txs, m)
    decreases |txs|
  {
    if |txs| > 0 {
      assert forall i :: 1 <= i < |txs| ==> txs[i] == txs[1..][i - 1];
      MonthSumsAreShownNet(txs[1..], m);
    }
  }

  // ---------------------------------------------------------------- the chart panel

  datatype ReportKind =
    | ExpensesByCategory
    | IncomeByCategory
    | MonthlyExpenses
    | MonthlyIncome
    | BalanceReport

  /** What the chart panel shows: the "no data" label when there are no
      transactions at all, an empty figure titled "no data" when the report
      has nothing to plot, or bars. */
  datatype Chart =
    | NoData
    | NothingToPlot
    | CategoryBars(categoryBars: seq<CategoryTotal>)
    | MonthBars(monthBars: seq<MonthTotal>)

  /** Whether the selected report has any transaction to plot. */
  predicate HasReportData(report: ReportKind, txs: seq<Transaction>) {
    match report
    case ExpensesByCategory => HasKind(txs, EXPENSE)
    case MonthlyExpenses => HasKind(txs, EXPENSE)
    case IncomeByCategory => HasKind(txs, INCOME)
    case MonthlyIncome => HasKind(txs, INCOME)
    case BalanceReport => HasKind(txs, INCOME) || HasKind(txs, EXPENSE)
  }

  lemma MonthlyTotalsEmpty(txs: seq<Transaction>, kind: string)
    ensures |MonthlyTotals(txs, kind)| == 0 <==> !HasKind(txs, kind)
  {
    var r := MonthlyTotals(txs, kind);
    if |r| > 0 {
      HasMonthAt(r, 0);
    }
    if HasKind(txs, kind) {
      var i := KindWitness(txs, kind);
      assert HasMonth(r, MonthOf(txs[i].date));
    }
  }

  lemma BalanceEmpty(txs: seq<Transaction>)
    ensures |Balance(txs)| == 0 <==> !HasKind(txs, INCOME) && !HasKind(txs, EXPENSE)
  {
    var r := Balance(txs);
    if |r| > 0 {
      HasMonthAt(r, 0);
    }
    if HasKind(txs, INCOME) {
      var i := KindWitness(txs, INCOME);
      assert HasMonth(r, MonthOf(txs[i].date));
    }
    if HasKind(txs, EXPENSE) {
      var i := KindWitness(txs, EXPENSE);
      assert HasMonth(r, MonthOf(txs[i].date));
    }
  }

  /** The chart for the selected report over every stored transaction. */
  function ChartFor(report: ReportKind, txs: seq<Transaction>): (r: Chart)
    ensures r == NoData <==> |txs| == 0
    ensures r == NothingToPlot <==> |txs| > 0 && !HasReportData(report, txs)
    ensures r.CategoryBars? ==> |r.categoryBars| > 0 && (report == ExpensesByCategory || report == IncomeByCategory)
    ensures r.MonthBars? ==> |r.monthBars| > 0 && (report == MonthlyExpenses || report == MonthlyIncome || report == BalanceReport)
    ensures |txs| > 0 && report == ExpensesByCategory && HasKind(txs, EXPENSE) ==> r == CategoryBars(CategoryReport(txs, EXPENSE))
    ensures |txs| > 0 && report == IncomeByCategory && HasKind(txs, INCOME) ==> r == CategoryBars(CategoryReport(txs, INCOME))
    ensures |txs| > 0 && report == MonthlyExpenses && HasKind(txs, EXPENSE) ==> r == MonthBars(MonthlyTotals(txs, EXPENSE))
    ensures |txs| > 0 && report == MonthlyIncome && HasKind(txs, INCOME) ==> r == MonthBars(MonthlyTotals(txs, INCOME))
    ensures |txs| > 0 && report == BalanceReport && HasReportData(report, txs) ==> r == MonthBars(Balance(txs))
  {
    if |txs| == 0 then NoData
    else
      MonthlyTotalsEmpty(txs, INCOME);
      MonthlyTotalsEmpty(txs, EXPENSE);
      BalanceEmpty(txs);
      match report
      case ExpensesByCategory =>
        var bars := CategoryReport(txs, EXPENSE);
        if |bars| > 0 then CategoryBars(bars) else NothingToPlot
      case IncomeByCategory =>
        var bars := CategoryReport(txs, INCOME);
        if |bars| > 0 then CategoryBars(bars) else NothingToPlot
      case MonthlyExpenses =>
        var bars := MonthlyTotals(txs, EXPENSE);
        if |bars| > 0 then MonthBars(bars) else NothingToPlot
      case MonthlyIncome =>
        var bars := MonthlyTotals(txs, INCOME);
        if |bars| > 0 then MonthBars(bars) else NothingToPlot
      case BalanceReport =>
        var bars := Balance(txs);
        if |bars| > 0 then MonthBars(bars) else NothingToPlot
  }
}
