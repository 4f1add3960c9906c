/** The read-only views of the store: the month and category lists that
    feed the filter boxes, the category choices for the entry form, and the
    transaction list, plain or filtered. */
module Queries {
  import opened Common
  import opened Text
  import opened Dates
  import opened Records
  import opened Sequences

  /** Months strictly descending: each later entry is an earlier period. */
  ghost predicate StrictlyDescending(ms: seq<YearMonth>) {
    forall i, j :: 0 <= i < j < |ms| ==> MonthBefore(ms[j], ms[i])
  }

  /** Puts `m` into its place in a strictly descending list, unless present. */
  function InsertMonth(m: YearMonth, ms: seq<YearMonth>): (r: seq<YearMonth>)
    requires StrictlyDescending(ms)
    ensures StrictlyDescending(r)
    ensures forall x :: x in r <==> x == m || x in ms
    decreases |ms|
  {
    if |ms| == 0 then [m]
    else if m == ms[0] then ms
    else if MonthBefore(ms[0], m) then [m] + ms
    else
      var rest := InsertMonth(m, ms[1..]);
      assert forall x :: x in ms <==> x == ms[0] || x in ms[1..] by {
        assert ms == [ms[0]] + ms[1..];
      }
      assert forall k :: 0 <= k < |rest| ==> MonthBefore(rest[k], ms[0]) by {
        forall k | 0 <= k < |rest| ensures MonthBefore(rest[k], ms[0]) {
          assert rest[k] in rest;
          if rest[k] != m {
            assert rest[k] in ms[1..];
            var j :| 0 <= j < |ms[1..]| && ms[1..][j] == rest[k];
            assert ms[j + 1] == rest[k];
          }
        }
      }
      [ms[0]] + rest
  }

  /** The month filter's choices: every `YYYY-MM` some transaction falls in,
      once each, newest first. */
  function MonthsList(txs: seq<Transaction>): (r: seq<YearMonth>)
    ensures StrictlyDescending(r)
    ensures forall m :: m in r <==> exists i :: 0 <= i < |txs| && MonthOf(txs[i].date) == m
    decreases |txs|
  {
    if |txs| == 0 then []
    else
      var rest := MonthsList(txs[1..]);
      assert forall i :: 1 <= i < |txs| ==> txs[i] == txs[1..][i - 1];
      InsertMonth(MonthOf(txs[0].date), rest)
  }

  /** A strictly descending list never repeats a month. */
  lemma StrictlyDescendingIsDistinct(ms: seq<YearMonth>)
    requires StrictlyDescending(ms)
    ensures Distinct(ms)
  {
  }

  /** The `YYYY-MM` text `strftime("%Y-%m")` writes for a four-digit year. */
  function MonthText(m: YearMonth): string
    requires 0 <= m.year < 10000 && 0 <= m.month < 100
  {
    Pad(m.year, 4) + "-" + Pad(m.month, 2)
  }

  /** Sorting the month texts in reverse, as the program does, is sorting the
      periods newest first: the text order is the chronological order. */
  lemma MonthTextOrder(a: YearMonth, b: YearMonth)
    requires 0 <= a.year < 10000 && 0 <= a.month < 100
    requires 0 <= b.year < 10000 && 0 <= b.month < 100
    ensures StringLe(MonthText(a), MonthText(b)) <==> !MonthBefore(b, a)
    ensures MonthText(a) == MonthText(b) <==> a == b
  {
    PadFieldOrder(a.year, b.year, 4, Pad(a.month, 2), Pad(b.month, 2));
    PadFieldOrder(b.year, a.year, 4, Pad(b.month, 2), Pad(a.month, 2));
    PadOrder(a.month, b.month, 2);
    PadOrder(b.month, a.month, 2);
    if MonthText(a) == MonthText(b) {
      StringLeAntisymmetric(Pad(a.month, 2), Pad(b.month, 2));
    }
  }

  /** `StringLe` is a total preorder, so sorting by it is well defined. */
  lemma StringLeIsTotalPreorder()
    ensures TotalPreorder(StringLe)
  {
    forall a, b ensures StringLe(a, b) || StringLe(b, a) {
      StringLeTotal(a, b);
    }
    forall a, b, c | StringLe(a, b) && StringLe(b, c) ensures StringLe(a, c) {
      StringLeTransitive(a, b, c);
    }
  }

  function Names(cats: seq<Category>): (r: seq<string>)
    ensures |r| == |cats|
    ensures forall i :: 0 <= i < |cats| ==> r[i] == cats[i].name
  {
    seq(|cats|, i requires 0 <= i < |cats| => cats[i].name)
  }

  /** The category filter's choices: every category name (repeats kept),
      in text order. */
  function CategoryNames(cats: seq<Category>): (r: seq<string>)
    ensures SortedBy(r, StringLe)
    ensures multiset(r) == multiset(Names(cats))
  {
    StringLeIsTotalPreorder();
    Sort(Names(cats), StringLe)
  }

  /** `idx` lists, in increasing order, exactly the positions of the rows of
      type `categoryType`. */
  ghost predicate RowsOfType(cats: seq<Category>, categoryType: string, idx: seq<int>) {
    && (forall k :: 0 <= k < |idx| ==> 0 <= idx[k] < |cats| && cats[idx[k]].categoryType == categoryType)
    && (forall k, l :: 0 <= k < l < |idx| ==> idx[k] < idx[l])
    && (forall i :: 0 <= i < |cats| && cats[i].categoryType == categoryType ==> i in idx)
  }

  /** The positions of the rows of type `categoryType` from position `from` on. */
  function TypeRowsFrom(cats: seq<Category>, categoryType: string, from: nat): (idx: seq<int>)
    requires from <= |cats|
    ensures forall k :: 0 <= k < |idx| ==> from <= idx[k] < |cats| && cats[idx[k]].categoryType == categoryType
    ensures forall k, l :: 0 <= k < l < |idx| ==> idx[k] < idx[l]
    ensures forall i :: from <= i < |cats| && cats[i].categoryType == categoryType ==> i in idx
    decreases |cats| - from
  {
    if from == |cats| then []
    else
      var rest := TypeRowsFrom(cats, categoryType, from + 1);
      if cats[from].categoryType == categoryType then [from] + rest else rest
  }

  /** The names of the rows of type `categoryType` from position `from` on. */
  function OptionsFrom(cats: seq<Category>, categoryType: string, from: nat): (r: seq<string>)
    requires from <= |cats|
    ensures |r| <= |cats| - from
    ensures |r| == |TypeRowsFrom(cats, categoryType, from)|
    ensures forall k :: 0 <= k < |r| ==> r[k] == cats[TypeRowsFrom(cats, categoryType, from)[k]].name
    decreases |cats| - from
  {
    if from == |cats| then []
    else
      var rest := OptionsFrom(cats, categoryType, from + 1);
      if cats[from].categoryType == categoryType then [cats[from].name] + rest else rest
  }

  /** The entry form's category choices for the selected type: the names of
      the rows of that type, one entry per row and in table order, so the
      preselected first entry is the first such row. */
  function CategoryOptions(cats: seq<Category>, categoryType: string): (r: seq<string>)
    ensures |r| <= |cats|
    ensures exists idx :: RowsOfType(cats, categoryType, idx)
              && |idx| == |r|
              && forall k :: 0 <= k < |idx| ==> r[k] == cats[idx[k]].name
    ensures forall n :: n in r <==> exists i :: 0 <= i < |cats| && cats[i].categoryType == categoryType && cats[i].name == n
  {
    var idx := TypeRowsFrom(cats, categoryType, 0);
    var r := OptionsFrom(cats, categoryType, 0);
    assert RowsOfType(cats, categoryType, idx);
    assert forall n :: n in r <==> exists i :: 0 <= i < |cats| && cats[i].categoryType == categoryType && cats[i].name == n by {
      forall n ensures n in r <==> exists i :: 0 <= i < |cats| && cats[i].categoryType == categoryType && cats[i].name == n {
        if n in r {
          var k :| 0 <= k < |r| && r[k] == n;
          assert cats[idx[k]].name == n;
        }
        if exists i :: 0 <= i < |cats| && cats[i].categoryType == categoryType && cats[i].name == n {
          var i :| 0 <= i < |cats| && cats[i].categoryType == categoryType && cats[i].name == n;
          var k :| 0 <= k < |idx| && idx[k] == i;
          assert r[k] == n;
        }
      }
    }
    r
  }

  /** Newest first; transactions of one date keep no particular order. */
  predicate NewerOrSame(a: Transaction, b: Transaction) {
    DateLe(b.date, a.date)
  }

  lemma NewerOrSameIsTotalPreorder()
    ensures TotalPreorder(NewerOrSame)
  {
  }

  /** The two filter boxes: a month (or none) and a category name (empty for none). */
  predicate Matches(t: Transaction, month: Option<YearMonth>, category: string) {
    && (month.None? || InMonthBound(t.date, month.value))
    && (category == "" || t.category == category)
  }

  /** The matching rows in table order. */
  function Select(txs: seq<Transaction>, month: Option<YearMonth>, category: string): (r: seq<Transaction>)
    ensures forall t :: multiset(r)[t] == if Matches(t, month, category) then multiset(txs)[t] else 0
    decreases |txs|
  {
    if |txs| == 0 then []
    else
      var rest := Select(txs[1..], month, category);
      assert txs == [txs[0]] + txs[1..];
      if Matches(txs[0], month, category) then [txs[0]] + rest else rest
  }

  /** The transaction list after choosing a filter: each matching row exactly
      as often as it is stored, and no other, newest first. With no filter
      set this is the unfiltered list shown at start-up and after each change. */
  function FilterTransactions(txs: seq<Transaction>, month: Option<YearMonth>, category: string): (r: seq<Transaction>)
    ensures SortedBy(r, NewerOrSame)
    ensures forall t :: multiset(r)[t] == if Matches(t, month, category) then multiset(txs)[t] else 0
  {
    NewerOrSameIsTotalPreorder();
    Sort(Select(txs, month, category), NewerOrSame)
  }

  /** The unfiltered list, newest first. */
  function ListAll(txs: seq<Transaction>): (r: seq<Transaction>)
    ensures SortedBy(r, NewerOrSame)
    ensures multiset(r) == multiset(txs)
  {
    var r := FilterTransactions(txs, None, "");
    assert forall t :: multiset(r)[t] == multiset(txs)[t];
    r
  }

  /** For stored dates the month bound selects exactly the transactions of that
      year and month: day 31 adds nothing for shorter months. */
  lemma MonthFilterIsSameMonth(txs: seq<Transaction>, m: YearMonth, t: Transaction)
    requires forall i :: 0 <= i < |txs| ==> ValidDate(txs[i].date)
    ensures t in FilterTransactions(txs, Some(m), "") <==> t in txs && MonthOf(t.date) == m
  {
    var r := FilterTransactions(txs, Some(m), "");
    assert t in r <==> multiset(r)[t] > 0;
    assert t in txs <==> multiset(txs)[t] > 0;
  }
}
