/** Properties that connect an action with the views the window redraws
    after it. */
module Workflows {
  import opened Common
  import opened Dates
  import opened Records
  import opened Sequences
  import opened Tracker
  import opened Queries
  import opened Reports

  /** After a save the refreshed list shows the new transaction exactly once,
      and at the top when it is strictly newer than every other. */
  lemma SaveThenListAll(
    s: Store, dateText: string, amountValue: Option<real>,
    category: string, transactionType: string, description: string)
    requires Wellformed(s)
    requires SaveTransaction(s, dateText, amountValue, category, transactionType, description).reply == Accepted
    ensures
      var txs := SaveTransaction(s, dateText, amountValue, category, transactionType, description).store.transactions;
      var t := txs[|s.transactions|];
      && multiset(ListAll(txs))[t] == 1
      && ((forall i :: 0 <= i < |s.transactions| ==> !DateLe(t.date, s.transactions[i].date))
            ==> ListAll(txs)[0] == t)
  {
    var txs := SaveTransaction(s, dateText, amountValue, category, transactionType, description).store.transactions;
    var t := txs[|s.transactions|];
    assert txs == s.transactions + [t];
    assert forall x :: x in s.transactions ==> x.id != t.id by {
      forall x | x in s.transactions ensures x.id != t.id {
        var i :| 0 <= i < |s.transactions| && s.transactions[i] == x;
      }
    }
    assert t !in s.transactions;
    assert multiset(txs) == multiset(s.transactions) + multiset{t};
    if forall i :: 0 <= i < |s.transactions| ==> !DateLe(t.date, s.transactions[i].date) {
      NewestFirst(ListAll(txs), t, s.transactions);
    }
  }

  /** In a newest-first list of `others` and `t`, where `t` is strictly newer
      than every other entry, `t` comes first. */
  lemma NewestFirst(shown: seq<Transaction>, t: Transaction, others: seq<Transaction>)
    requires SortedBy(shown, NewerOrSame)
    requires multiset(shown) == multiset(others) + multiset{t}
    requires forall i :: 0 <= i < |others| ==> !DateLe(t.date, others[i].date)
    ensures |shown| > 0 && shown[0] == t
  {
    assert t in multiset(shown);
    var k :| 0 <= k < |shown| && shown[k] == t;
    var first := shown[0];
    assert NewerOrSame(first, shown[k]);
    assert forall x :: x in others ==> !DateLe(t.date, x.date) by {
      forall x | x in others ensures !DateLe(t.date, x.date) {
        var i :| 0 <= i < |others| && others[i] == x;
      }
    }
    assert first !in others;
    assert first in multiset(shown);
  }

  /** After a confirmed deletion no listed transaction carries the deleted id. */
  lemma DeleteThenListAll(s: Store, id: int)
    ensures
      var txs := DeleteTransaction(s, Some(id), true).store.transactions;
      forall t :: t in ListAll(txs) ==> t.id != id
  {
    var txs := DeleteTransaction(s, Some(id), true).store.transactions;
    forall t | t in ListAll(txs) ensures t.id != id {
      assert t in multiset(ListAll(txs));
      assert t in multiset(txs);
    }
  }

  /** Every month the month box offers selects at least one transaction. */
  lemma OfferedMonthIsNotEmpty(txs: seq<Transaction>, m: YearMonth)
    requires forall i :: 0 <= i < |txs| ==> ValidDate(txs[i].date)
    requires m in MonthsList(txs)
    ensures |FilterTransactions(txs, Some(m), "")| > 0
  {
    var i :| 0 <= i < |txs| && MonthOf(txs[i].date) == m;
    MonthFilterIsSameMonth(txs, m, txs[i]);
  }

  /** The balance of a small ledger: income 1000 in January 2024, expenses
      400 in January and 50 in February give bars of 600 and -50. */
  lemma BalanceExample()
    ensures
      var txs := [
        Transaction(1, Date(2024, 1, 5), 1000.0, "Atlyginimas", INCOME, ""),
        Transaction(2, Date(2024, 1, 9), 400.0, "Maistas", EXPENSE, ""),
        Transaction(3, Date(2024, 2, 1), 50.0, "Maistas", EXPENSE, "")];
      var b := Balance(txs);
      && MonthTotalFor(b, YearMonth(2024, 1)) == 600.0
      && MonthTotalFor(b, YearMonth(2024, 2)) == -50.0
      && forall m :: HasMonth(b, m) <==> m == YearMonth(2024, 1) || m == YearMonth(2024, 2)
  {
    var txs := [
        Transaction(1, Date(2024, 1, 5), 1000.0, "Atlyginimas", INCOME, ""),
        Transaction(2, Date(2024, 1, 9), 400.0, "Maistas", EXPENSE, ""),
        Transaction(3, Date(2024, 2, 1), 50.0, "Maistas", EXPENSE, "")];
    var jan, feb := YearMonth(2024, 1), YearMonth(2024, 2);
    assert txs[1..][1..][1..] == [];
    assert MonthSum(txs[1..][1..], INCOME, jan) == 0.0;
    assert MonthSum(txs[1..], INCOME, jan) == 0.0;
    assert MonthSum(txs, INCOME, jan) == 1000.0;
    assert MonthSum(txs[1..][1..], EXPENSE, jan) == 0.0;
    assert MonthSum(txs[1..], EXPENSE, jan) == 400.0;
    assert MonthSum(txs, EXPENSE, jan) == 400.0;
    assert MonthSum(txs[1..][1..], INCOME, feb) == 0.0;
    assert MonthSum(txs[1..], INCOME, feb) == 0.0;
    assert MonthSum(txs, INCOME, feb) == 0.0;
    assert MonthSum(txs[1..][1..], EXPENSE, feb) == 50.0;
    assert MonthSum(txs[1..], EXPENSE, feb) == 50.0;
    assert MonthSum(txs, EXPENSE, feb) == 50.0;
    forall m ensures HasMonth(Balance(txs), m) <==> m == jan || m == feb {
      if m == feb { assert MonthOf(txs[2].date) == m; }
      if m == jan { assert MonthOf(txs[0].date) == m; }
    }
  }
}
