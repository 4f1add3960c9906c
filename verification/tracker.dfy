/** The tracker's state-changing actions: seeding the default categories,
    saving a transaction, adding a category, and the two guarded deletions.

    Each action maps a store to a new store and the notice the window shows.
    A refused action returns the store it was given. Dialog answers and the
    row selected in a list are parameters. */
module Tracker {
  import opened Common
  import opened Dates
  import opened Records

  /** Why an action changed nothing. */
  datatype Refusal =
    | MalformedDate          // strptime raised ValueError
    | MalformedAmount        // float() raised ValueError
    | NoCategory             // the category box is empty
    | EmptyName              // a new category without a name
    | NothingSelected        // no row is selected in the list
    | CategoryInUse(count: nat) // transactions still name the category
    | Declined               // the user answered "no" to the confirmation

  datatype Reply = Accepted | Refused(reason: Refusal)

  datatype Step = Step(store: Store, reply: Reply)

  /** A row of the category list: the id it was inserted under and the name it shows. */
  datatype CategoryRow = CategoryRow(id: int, name: string)

  /** The categories created on first start, in insertion order. */
  const DefaultCategories: seq<(string, string)> := [
    ("Maistas", EXPENSE),
    ("Transportas", EXPENSE),
    ("Mokesčiai", EXPENSE),
    ("Pramogos", EXPENSE),
    ("Būstas", EXPENSE),
    ("Atlyginimas", INCOME),
    ("Verslas", INCOME),
    ("Investicijos", INCOME),
    ("Kitos pajamos", INCOME)
  ]

  /** Inserts the given (name, type) rows one after another, each under a fresh id. */
  function InsertCategories(cats: seq<Category>, rows: seq<(string, string)>): (r: seq<Category>)
    ensures |r| == |cats| + |rows|
    ensures r[..|cats|] == cats
    ensures forall i :: 0 <= i < |rows| ==>
              r[|cats| + i].name == rows[i].0 && r[|cats| + i].categoryType == rows[i].1
    ensures UniqueKeys(cats, CategoryId) ==> UniqueKeys(r, CategoryId)
    decreases |rows|
  {
    if |rows| == 0 then cats
    else
      var next := cats + [Category(FreshKey(cats, CategoryId), rows[0].0, rows[0].1)];
      AppendFreshKeepsUnique(cats, CategoryId, next[|cats|]);
      var r := InsertCategories(next, rows[1..]);
      assert r[..|cats|] == r[..|next|][..|cats|];
      r
  }

  /** Start-up seeding: the default categories go in only when the category
      table has no row at all; otherwise nothing changes. */
  function SeedDefaults(s: Store): (r: Store)
    ensures r.transactions == s.transactions
    ensures |s.categories| > 0 ==> r == s
    ensures |s.categories| == 0 ==>
              && |r.categories| == |DefaultCategories|
              && forall i :: 0 <= i < |DefaultCategories| ==>
                   (r.categories[i].name, r.categories[i].categoryType) == DefaultCategories[i]
    ensures Wellformed(s) ==> Wellformed(r)
  {
    if |s.categories| > 0 then s
    else s.(categories := InsertCategories(s.categories, DefaultCategories))
  }

  /** Seeding happens once: a second start-up finds categories and adds none. */
  lemma SeedOnce(s: Store)
    ensures SeedDefaults(SeedDefaults(s)) == SeedDefaults(s)
  {
  }

  /** The id the next saved transaction receives. */
  function NextTransactionId(s: Store): int {
    FreshKey(s.transactions, TransactionId)
  }

  /** The Save button. The date text is parsed first, then the amount text
      (`amountValue` is what `float()` made of it, `None` where it raised),
      then the category box is checked for emptiness. Nothing checks the
      sign of the amount, that the type is one of the two radio values, or
      that the category exists. */
  function SaveTransaction(
    s: Store, dateText: string, amountValue: Option<real>,
    category: string, transactionType: string, description: string): (r: Step)
    ensures ParseDate(dateText).None? ==> r == Step(s, Refused(MalformedDate))
    ensures ParseDate(dateText).Some? && amountValue.None? ==> r == Step(s, Refused(MalformedAmount))
    ensures ParseDate(dateText).Some? && amountValue.Some? && category == "" ==>
              r == Step(s, Refused(NoCategory))
    ensures r.reply == Accepted <==> ParseDate(dateText).Some? && amountValue.Some? && category != ""
    ensures r.reply == Accepted ==>
              && r.store.categories == s.categories
              && |r.store.transactions| == |s.transactions| + 1
              && r.store.transactions[..|s.transactions|] == s.transactions
              && var t := r.store.transactions[|s.transactions|];
                 && t.date == ParseDate(dateText).value
                 && t.amount == amountValue.value
                 && t.category == category
                 && t.transactionType == transactionType
                 && t.description == description
                 && forall i :: 0 <= i < |s.transactions| ==> s.transactions[i].id != t.id
    ensures Wellformed(s) ==> Wellformed(r.store)
  {
    match ParseDate(dateText)
    case None => Step(s, Refused(MalformedDate))
    case Some(date) =>
      match amountValue
      case None => Step(s, Refused(MalformedAmount))
      case Some(amount) =>
        if category == "" then Step(s, Refused(NoCategory))
        else
          var t := Transaction(NextTransactionId(s), date, amount, category, transactionType, description);
          AppendFreshKeepsUnique(s.transactions, TransactionId, t);
          assert (s.transactions + [t])[..|s.transactions|] == s.transactions;
          Step(s.(transactions := s.transactions + [t]), Accepted)
  }

  /** Looks a transaction up by id, as a query by primary key does. */
  function FindTransaction(txs: seq<Transaction>, id: int): (r: Option<Transaction>)
    ensures r.Some? ==> r.value in txs && r.value.id == id
    ensures r.None? ==> forall i :: 0 <= i < |txs| ==> txs[i].id != id
    decreases |txs|
  {
    if |txs| == 0 then None
    else if txs[0].id == id then Some(txs[0])
    else FindTransaction(txs[1..], id)
  }

  /** Saving and then reading back by the new id gives the saved fields. */
  lemma SaveThenFind(
    s: Store, dateText: string, amountValue: Option<real>,
    category: string, transactionType: string, description: string)
    requires Wellformed(s)
    requires SaveTransaction(s, dateText, amountValue, category, transactionType, description).reply == Accepted
    ensures
      var r := SaveTransaction(s, dateText, amountValue, category, transactionType, description).store;
      FindTransaction(r.transactions, NextTransactionId(s))
        == Some(Transaction(NextTransactionId(s), ParseDate(dateText).value, amountValue.value,
                            category, transactionType, description))
  {
    var r := SaveTransaction(s, dateText, amountValue, category, transactionType, description).store;
    var t := r.transactions[|s.transactions|];
    var found := FindTransaction(r.transactions, NextTransactionId(s));
    assert t.id == NextTransactionId(s);
    assert found.Some?;
    var k :| 0 <= k < |r.transactions| && r.transactions[k] == found.value;
    assert k == |s.transactions|;
  }

  /** The category window's Save button: refused for an empty name, otherwise
      one new category under a fresh id. Duplicate names are accepted. */
  function AddCategory(s: Store, name: string, categoryType: string): (r: Step)
    ensures name == "" ==> r == Step(s, Refused(EmptyName))
    ensures name != "" ==>
              && r.reply == Accepted
              && r.store.transactions == s.transactions
              && |r.store.categories| == |s.categories| + 1
              && r.store.categories[..|s.categories|] == s.categories
              && r.store.categories[|s.categories|].name == name
              && r.store.categories[|s.categories|].categoryType == categoryType
              && forall i :: 0 <= i < |s.categories| ==> s.categories[i].id != r.store.categories[|s.categories|].id
    ensures Wellformed(s) ==> Wellformed(r.store)
  {
    if name == "" then Step(s, Refused(EmptyName))
    else Step(s.(categories := InsertCategories(s.categories, [(name, categoryType)])), Accepted)
  }

  /** A category added by the user also stops the defaults from being seeded. */
  lemma NoSeedAfterAddCategory(s: Store, name: string, categoryType: string)
    requires name != ""
    ensures var r := AddCategory(s, name, categoryType).store;
            SeedDefaults(r) == r
  {
  }

  /** The category column of the transaction table, row by row. */
  function CategoryColumn(txs: seq<Transaction>): (r: seq<string>)
    ensures |r| == |txs|
    ensures forall i :: 0 <= i < |txs| ==> r[i] == txs[i].category
  {
    seq(|txs|, i requires 0 <= i < |txs| => txs[i].category)
  }

  /** How many transactions name the category: the guard's COUNT query. */
  function Usage(txs: seq<Transaction>, name: string): (n: nat)
    ensures n <= |txs|
    ensures n == multiset(CategoryColumn(txs))[name]
    ensures n > 0 <==> exists i :: 0 <= i < |txs| && txs[i].category == name
    decreases |txs|
  {
    if |txs| == 0 then 0
    else
      assert CategoryColumn(txs) == [txs[0].category] + CategoryColumn(txs[1..]);
      (if txs[0].category == name then 1 else 0) + Usage(txs[1..], name)
  }

  /** The Delete button of the transaction list. */
  function DeleteTransaction(s: Store, selected: Option<int>, confirmed: bool): (r: Step)
    ensures selected.None? ==> r == Step(s, Refused(NothingSelected))
    ensures selected.Some? && !confirmed ==> r == Step(s, Refused(Declined))
    ensures selected.Some? && confirmed ==>
              && r.reply == Accepted
              && r.store.categories == s.categories
              && (forall t :: t in r.store.transactions <==> t in s.transactions && t.id != selected.value)
              && r.store.transactions == RemoveKey(s.transactions, TransactionId, selected.value)
              && (UniqueKeys(s.transactions, TransactionId) ==>
                    |r.store.transactions| == |s.transactions|
                      - (if exists i :: 0 <= i < |s.transactions| && s.transactions[i].id == selected.value then 1 else 0))
    ensures Wellformed(s) ==> Wellformed(r.store)
  {
    match selected
    case None => Step(s, Refused(NothingSelected))
    case Some(id) =>
      if !confirmed then Step(s, Refused(Declined))
      else
        var rest := RemoveKey(s.transactions, TransactionId, id);
        Step(s.(transactions := rest), Accepted)
  }

  /** The Delete button of the category window. The guard counts the
      transactions naming the selected row's name; only when there are none
      is the user asked, and only then is the row with that id removed. */
  function DeleteCategory(s: Store, selected: Option<CategoryRow>, confirmed: bool): (r: Step)
    ensures selected.None? ==> r == Step(s, Refused(NothingSelected))
    ensures selected.Some? && Usage(s.transactions, selected.value.name) > 0 ==>
              r == Step(s, Refused(CategoryInUse(Usage(s.transactions, selected.value.name))))
    ensures selected.Some? && Usage(s.transactions, selected.value.name) == 0 && !confirmed ==>
              r == Step(s, Refused(Declined))
    ensures selected.Some? && Usage(s.transactions, selected.value.name) == 0 && confirmed ==>
              && r.reply == Accepted
              && r.store.transactions == s.transactions
              && (forall c :: c in r.store.categories <==> c in s.categories && c.id != selected.value.id)
              && r.store.categories == RemoveKey(s.categories, CategoryId, selected.value.id)
    ensures Wellformed(s) ==> Wellformed(r.store)
  {
    match selected
    case None => Step(s, Refused(NothingSelected))
    case Some(row) =>
      var count := Usage(s.transactions, row.name);
      if count > 0 then Step(s, Refused(CategoryInUse(count)))
      else if !confirmed then Step(s, Refused(Declined))
      else Step(s.(categories := RemoveKey(s.categories, CategoryId, row.id)), Accepted)
  }

  /** Some row of `cats` carries the name `name`. */
  ghost predicate NamesCategory(cats: seq<Category>, name: string) {
    exists j :: 0 <= j < |cats| && cats[j].name == name
  }

  /** Every transaction names some existing category. */
  ghost predicate CategoriesResolve(s: Store) {
    forall i :: 0 <= i < |s.transactions| ==> NamesCategory(s.categories, s.transactions[i].category)
  }

  /** Deleting the category row at `j0` by its id keeps every category name
      a transaction uses, provided no transaction uses the deleted row's name. */
  lemma RemoveUnnamedKeepsNames(txs: seq<Transaction>, cats: seq<Category>, j0: int)
    requires UniqueKeys(cats, CategoryId)
    requires 0 <= j0 < |cats|
    requires forall i :: 0 <= i < |txs| ==> txs[i].category != cats[j0].name
    requires forall i :: 0 <= i < |txs| ==> NamesCategory(cats, txs[i].category)
    ensures forall i :: 0 <= i < |txs| ==> NamesCategory(RemoveKey(cats, CategoryId, cats[j0].id), txs[i].category)
  {
    var kept := RemoveKey(cats, CategoryId, cats[j0].id);
    forall i | 0 <= i < |txs| ensures NamesCategory(kept, txs[i].category) {
      var j :| 0 <= j < |cats| && cats[j].name == txs[i].category;
      assert j != j0;
      assert CategoryId(cats[j]) != CategoryId(cats[j0]);
      assert cats[j] in kept;
      var j1 :| 0 <= j1 < |kept| && kept[j1] == cats[j];
      assert kept[j1].name == txs[i].category;
    }
  }

  /** The usage guard keeps every reference resolvable: deleting the row the
      list shows never leaves a transaction naming a missing category. */
  lemma DeleteCategoryKeepsReferences(s: Store, row: CategoryRow, confirmed: bool)
    requires Wellformed(s)
    requires CategoriesResolve(s)
    requires exists j :: 0 <= j < |s.categories| && s.categories[j] == Category(row.id, row.name, s.categories[j].categoryType)
    ensures CategoriesResolve(DeleteCategory(s, Some(row), confirmed).store)
  {
    var r := DeleteCategory(s, Some(row), confirmed);
    if Usage(s.transactions, row.name) == 0 && confirmed {
      var j0 :| 0 <= j0 < |s.categories| && s.categories[j0] == Category(row.id, row.name, s.categories[j0].categoryType);
      assert forall i :: 0 <= i < |s.transactions| ==> s.transactions[i].category != s.categories[j0].name;
      RemoveUnnamedKeepsNames(s.transactions, s.categories, j0);
      var kept := RemoveKey(s.categories, CategoryId, s.categories[j0].id);
      assert r.store == Store(s.transactions, kept);
      assert CategoriesResolve(Store(s.transactions, kept));
    } else {
      assert r.store == s;
    }
  }
}
