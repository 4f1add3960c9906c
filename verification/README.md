# Finance tracker: a verified model of its business rules

The tracker is a single-window desktop program. It records income and
expense transactions in two SQLite tables, `transactions` and `categories`,
and draws five bar-chart reports over them. This project models the rules
that the window's callbacks apply to those tables. The model is a set of
pure functions over an in-memory `Store` holding both tables as sequences in
insertion order.

- **Dates** (`dates.dfy`): calendar dates as (year, month, day) triples.
  - The parser follows `strptime("%Y-%m-%d")`.
  - ISO text is the stored form.
  - A proof shows that comparing the stored text, as SQLite does, is
    comparing the dates.
- **Records** (`records.dfy`): the two row types, the store, unique primary
  keys, the fresh id an insert receives, and deletion by key.
- **Tracker** (`tracker.dfy`): the state-changing actions.
  - Seeding the nine default categories.
  - Saving a transaction, with the program's three refusals in the program's
    order.
  - Adding a category.
  - Deleting a transaction.
  - Deleting a category behind its usage guard.

  Each action returns the new store and the notice shown. A refused action
  returns the store unchanged.
- **Queries** (`queries.dfy`): the read-only views.
  - The month filter's choices.
  - The category filter's choices.
  - The entry form's category choices.
  - The transaction list, plain and filtered, newest first.
- **Reports** (`reports.dfy`): the five charts.
  - Per-category totals sorted by sum.
  - Per-month totals.
  - The monthly balance.

  Each is proved equal to an independent reference sum over the
  transactions, together with the choice between the "no data" label, an
  empty figure and bars.
- **Workflows** (`workflows.dfy`): properties that span an action and the
  view redrawn after it.
- **Shared helpers**: `sequences.dfy` (sorting, permutations, sums),
  `text.dfy` (digits, zero padding, byte-wise string order) and
  `common.dfy` (`Option`).

Behaviour of the code worth knowing:

- The amount's sign is never checked. Zero and negative amounts are saved.
- The transaction type is whatever text the radio button holds. It is
  stored as given. Only the exact text `"income"` is shown as income; every
  other value is shown with a minus sign as an expense. The reports select
  the exact texts `"income"` and `"expense"`.
- The category of a saved transaction only has to be non-empty. It need not
  name an existing category. Category names need not be unique.
- The entry form's category choices for a type come in table order, not
  sorted by name (main.py:174 has no ORDER BY).

## Model

| member | source | states |
|---|---|---|
| `Dates.ParseDate` | main.py:181 | a date text is accepted only when it spells a real calendar date (years 1 to 9999); the accepted text is 8 to 10 characters long, starts with four digits and a dash, and those four digits are the year |
| `Dates.ParseDateAccepts` | main.py:181 | a text parses to a date exactly when it is four year digits, a dash, one or two month digits, a dash and a day of one digit, two digits or a space and a digit, and these fields spell a real calendar date, which is the result |
| `Dates.ParseDateShortForms` | main.py:181 | `2024-1-5` and `2024-01- 5` both parse to 5 January 2024, and `2024-01-1a` is refused |
| `Dates.ParseFormatRoundTrip` | main.py:426-428 | every storable date, written as its ISO text and parsed again, gives back the same date |
| `Dates.FormatParseRoundTrip` | main.py:181 | a ten-character date text with all-digit fields that parses is exactly the ISO text of the date it parses to |
| `Dates.IsoTextOrder` | main.py:225 | ordering the stored ISO texts byte by byte is ordering the dates chronologically |
| `Dates.InMonthBound` | main.py:441-446 | for a real calendar date, lying between day 01 and day 31 of a month holds exactly when the date is in that year and month |
| `Dates.MonthBoundAsText` | main.py:443-446 | the month filter's text bounds `Y-MM-01` and `Y-MM-31`, compared as SQLite compares them, select the same dates as the bound on dates |
| `Records.FreshKey` | main.py:191-200 | the id a new row receives is larger than every id already in the table |
| `Records.AppendFreshKeepsUnique` | main.py:16 | appending a row under the fresh id keeps primary keys unique |
| `Records.RemoveKey` | main.py:422 | deleting by id keeps exactly the rows with other ids and changes nothing when no row has that id; with unique keys it removes at most one row and keeps keys unique |
| `Records.RemoveKeyKeepsOrder` | main.py:422 | the rows a deletion keeps stay in their table order: the result is, one by one, the rows at the increasing positions whose id differs |
| `Tracker.InsertCategories` | main.py:58-62 | inserting (name, type) rows appends them in order under fresh ids, leaving the earlier rows unchanged and keys unique |
| `Tracker.SeedDefaults` | main.py:44-62 | on an empty category table exactly the nine default (name, type) pairs are inserted in order; a table with any row is left unchanged; transactions are never touched |
| `Tracker.SeedOnce` | main.py:45 | a second start-up after seeding inserts nothing |
| `Tracker.SaveTransaction` | main.py:179-206 | an unparseable date, then an unparseable amount, then an empty category each refuse and change nothing; otherwise exactly one transaction is appended with the given fields and an id no existing row has, and earlier rows and the categories are unchanged |
| `Tracker.SaveThenFind` | main.py:191-200 | reading back by the new id after a save returns the saved date, amount, category, type and description |
| `Tracker.AddCategory` | main.py:371-379 | an empty name is refused with nothing changed; otherwise one category with that name and type is appended under a fresh id, even when the name already exists |
| `Tracker.NoSeedAfterAddCategory` | main.py:45 | once a user-added category exists, start-up seeding adds nothing |
| `Tracker.Usage` | main.py:398-399 | the usage count is the number of transactions whose category column holds the name, so it is positive exactly when some transaction names the category |
| `Tracker.DeleteTransaction` | main.py:413-423 | with no selection, or when the user declines, nothing changes; after confirmation the table becomes the `RemoveKey` deletion of the selected id, so exactly the rows with that id are gone and the others keep their table order, and the categories are unchanged |
| `Tracker.DeleteCategory` | main.py:392-410 | a category some transaction names is refused with the exact usage count and nothing changed; declining changes nothing; otherwise the category table becomes the `RemoveKey` deletion of the selected id, so exactly that category is gone and the others keep their table order (the order the entry form lists them in), and no transaction is touched |
| `Tracker.DeleteCategoryKeepsReferences` | main.py:398-408 | when every transaction names an existing category, deleting a listed category keeps it that way |
| `Queries.MonthsList` | main.py:426-429 | the month choices are exactly the months of the stored dates, each once, strictly newest first |
| `Queries.StrictlyDescendingIsDistinct` | main.py:428 | the month choices contain no month twice |
| `Queries.MonthTextOrder` | main.py:428-429 | sorting the `YYYY-MM` texts in reverse is sorting the months newest first, and distinct months have distinct texts |
| `Queries.CategoryNames` | main.py:431-433 | the category filter's choices are every category name, repeats kept, in byte-wise text order |
| `Queries.CategoryOptions` | main.py:173-177 | the entry form offers the name of every category row of the selected type and nothing else, one entry per row (repeated names kept) in table order, so the preselected first entry is the first such row |
| `Queries.FilterTransactions` | main.py:435-451 | the filtered list holds each transaction inside the month bound and with the chosen category exactly as often as it is stored, and no other, newest first |
| `Queries.ListAll` | main.py:221-225 | the unfiltered list is a reordering of all stored transactions, newest first |
| `Queries.MonthFilterIsSameMonth` | main.py:441-446 | for stored dates the model's month filter selects exactly the transactions of that year and month; the program does so for four-digit years only (see Left out) |
| `Reports.GroupByCategory` | main.py:264-265 | grouping by category gives one row per category used by the type, each holding that category's sum, and the rows add up to the type's total |
| `Reports.CategoryReport` | main.py:263-266 | the by-category bars are ascending by sum, one per category used by the type, each the category's sum, and empty exactly when the type has no transaction |
| `Reports.CategoryReportConservesTotal` | main.py:265-266 | the by-category bars add up to the total amount of that type |
| `Reports.MonthlyTotals` | main.py:285-288 | the monthly bars are ascending by month, one per month the type occurs in, each the month's sum, and add up to the type's total |
| `Reports.MonthlyTotalsEmpty` | main.py:286-287 | the monthly series is empty exactly when the type has no transaction |
| `Reports.Subtract` | main.py:311 | subtracting two monthly series covers the union of their months, ascending, each holding income minus expense with a missing side read as 0 |
| `Reports.Balance` | main.py:307-311 | the balance has a bar for exactly the months with an income or an expense, each the month's income sum minus its expense sum |
| `Reports.BalanceEmpty` | main.py:313 | the balance is empty exactly when there is neither an income nor an expense |
| `Reports.BalanceIsShownNet` | main.py:228-229 | when every type is one of the two radio values, a month's balance bar equals the sum of the signed amounts the list shows for that month |
| `Reports.ChartFor` | main.py:249-319 | with no transactions the panel shows the "no data" label; when the selected report has nothing of its type it shows an empty figure; otherwise it shows that report's bars, never empty |
| `Workflows.SaveThenListAll` | main.py:199-204 | after a save the refreshed list shows the new transaction exactly once, and first when its date is strictly the newest |
| `Workflows.DeleteThenListAll` | main.py:421-423 | after a confirmed deletion no listed transaction carries the deleted id |
| `Workflows.OfferedMonthIsNotEmpty` | main.py:426-446 | every month the month filter offers selects at least one transaction in the model; in the program this holds for four-digit years only (see Left out) |
| `Workflows.BalanceExample` | main.py:307-311 | an income of 1000 in January 2024 with expenses of 400 in January and 50 in February gives a balance of 600 and -50 over exactly those two months |

## Left out

- Widgets, message boxes and the list and chart rendering: the user-visible texts, colours, titles and tick labels are not modelled. A notice is reduced to the `Reply` value.
- Confirmation dialogs are a `bool` parameter. The selected list row is an `Option` parameter, since the focus comes from the widget.
- SQLAlchemy sessions, commits and the SQLite file are not modelled. A storage failure during a commit is not modelled either. The tables are sequences in insertion order.
- The id SQLite assigns is taken to be one more than the largest id, or 1 in an empty table. Only freshness is relied on.
- Amounts are exact reals. Float rounding, NaN and infinity are out of scope, and so is the `"%.2f"` formatting of the list.
- The amount text is not parsed: `SaveTransaction` receives what `float()` made of it, or `None` where it raised.
- `Dates.ParseDate` accepts ASCII digits only. Python's `strptime` also accepts other Unicode decimal digits.
- The month filter's text is not parsed either. `map(int, month.split('-'))` on text typed by hand can raise an error the callback does not catch. The model receives the chosen (year, month) pair.
- `Dates.MonthBoundAsText` and `Queries.MonthTextOrder` hold for four-digit years only. For a year below 1000, `f"{year}"` does not pad to four digits, and `strftime("%Y")` may not, depending on the C library.
- Queries.FilterTransactions: for a year below 1000 the model selects the month's rows, but the program does not. Such dates are stored as `0999-…` text, and the program's bound is the unpadded `999-01-01` to `999-01-31`, which no stored text lies between, so the program's filter returns nothing. The model compares dates, not texts, so it agrees with the program only for four-digit years.
- Queries.MonthFilterIsSameMonth: holds in the program for four-digit years only. For a year below 1000 the program's unpadded bound selects nothing, as the line above explains, while the lemma is stated for the model's filter.
- Workflows.OfferedMonthIsNotEmpty: holds in the program for four-digit years only. A transaction dated in year 999 makes the program offer `0999-01` or `999-01`, and filtering by that month shows no row, because the bound `999-01-01` to `999-01-31` lies above the stored text `0999-01-05`.
- Queries.MonthsList: for a year below 1000 the model's list is newest first, but the program's need not be. The program sorts the month texts, and `strftime("%Y")` may write such a year unpadded (`999-01`), which sorts after `2024-01` as text. The model orders months by date.
- Reports.ChartFor: pandas before 3.0 represents dates only between 1677-09-21 and 2262-04-11. `pd.to_datetime` (main.py:255) raises for other dates that the date parser accepts. After a save the error notice then appears although the row is already committed, and at start-up the error is not caught. The model draws the report for every date.
- Tracker.DeleteCategory: the program reads the selected name back from the list widget (main.py:399), and ttk converts a value that looks like an integer into one. A category named `007`, ` 5` or `+5` is then counted under the text `7` or `5`, so it can be deleted while transactions still name it. The model counts uses of the exact name.
- The default date of the entry form comes from the clock (`datetime.now()`), so it is left out. So are `clear_fields` and the retained combobox text when a type has no categories.
- The category management window's own list order (by type, then name) is presentation and is not modelled.
- pandas plumbing (`read_sql`, `to_period`) is reduced to its group-and-sum result.
- Ties are left unordered. `Reports.CategoryReport` leaves equal sums in no particular order, and `Queries.FilterTransactions` does the same for transactions of one date. Neither pandas' sort nor SQLite's ORDER BY fixes an order for them.
