# Budget tracker data layer in Dafny

This project models the data-access layer of `dollar_cli`, a command-line budget tracker.
The tracker keeps two tables. The categories table holds a unique name and an optional
budget limit. The transactions table holds an amount, a description, a date, a type
(income or expense) and a reference to a category.

The layer offers five operations:
- `add_transaction` records a transaction. It first gets or creates its category by exact name.
- `set_budget_limit` gets or creates a category and overwrites its limit.
- `get_monthly_summary` returns this month's income, expenses and balance.
- `list_transactions` returns the most recent transactions. It can be restricted to one
  category and/or one type.
- `get_category_spending` returns this month's expense total for each category name.

Files:
- `wrappers.dfy`: `Option` (NULL / not found) and `Result` (an operation that may raise).
- `models.dfy` (module `Models`) models the schema:
  - the `TransactionType` enumeration and the conversion from its string values;
  - timestamps, compared field by field, year first. This is the order of the fixed-width
    text in which SQLite stores them, and the queries compare dates in SQL;
  - the `Category`, `Transaction` and `BudgetGoal` records and their column defaults;
  - `StoreInvariant`, which the store keeps true: unique category names, keys `1, 2, 3, …`
    in insertion order, and every transaction referencing an existing category.
- `helpers.dfy` (module `Helpers`) models the data-access layer:
  - The class `Store` holds the two tables as sequences.
  - Its methods `AddTransaction` and `SetBudgetLimit` update the tables in place. Each keeps
    `Valid()` and is specified by the value-level functions `WithCategory` and `WithBudgetLimit`.
  - The three queries are functions over the two tables: `MonthlySummary`, `ListTransactions`
    and `CategorySpending`.
  - All three queries are built on one selection function, `Select` (the SQL `WHERE`), and
    `SumAmounts` (the SQL `SUM(...)`, with an empty sum read as 0).
  - Ordering is a stable insertion sort by date, newest first. The lemmas state what the
    source promises about each query.
- `scenarios.dfy` (module `Scenarios`) proves two worked examples. The first is a monthly
  summary after two recordings, proved from the contracts of `AddTransaction` and the
  summary lemmas. The second is a one-item listing of a category that holds two
  transactions. It is proved from the contracts of `AddTransaction` and the listing lemmas.

Modelling decisions:
- Money amounts are whole cents (`int`). Limits are `int` cents too.
- The wall clock is an explicit `now` argument. The start of the month is
  `DateTime(now.year, now.month, 1, 0, 0, 0, 0)`.
- Keys are assigned as an integer primary key column assigns them to a table that is never
  deleted from: the next key is the row count plus one.
- Each call is one atomic step. One effect of `add_transaction`'s two commits is kept: the
  category is created and committed before the type string is converted. So a type string
  other than `"income"` or `"expense"` fails with the new category left in place and no
  transaction added.
- `list_transactions` tests its filters for truthiness, so an absent or empty string applies
  no filter. A type string that names no member raises. `LIMIT` with a negative count sets no
  bound, as SQLite reads it.
- Three points of the code that the model keeps as written:
  - `category_id` is nullable (`dollar_cli/models.py:35`). The model keeps it optional, and
    the store invariant records that `add_transaction` always sets it.
  - The summary's date filter has no upper bound (`dollar_cli/helpers.py:43`,
    `dollar_cli/helpers.py:49`): every transaction dated at or after the start of the month counts.
  - A failed type conversion leaves the new category committed (`dollar_cli/helpers.py:13-16`,
    `dollar_cli/helpers.py:23`).

## Model

| member | source | states |
|---|---|---|
| `Models.ParseTransactionType` | dollar_cli/models.py:11-13 | converting a string gives the member whose value it is; a string that is the value of no member fails |
| `Models.ParseTypeValue` | dollar_cli/models.py:11-13 | converting a member's own value gives that member back |
| `Models.StartOfMonth` | dollar_cli/helpers.py:37-38 | the start of the month has `now`'s year and month, is a valid timestamp and is not after `now` |
| `Models.SinceStartOfMonth` | dollar_cli/helpers.py:38 | a timestamp is at or after the start of `now`'s month exactly when its (year, month) is not earlier than `now`'s |
| `Models.NewTransaction` | dollar_cli/models.py:30-35 | a new transaction carries the given key, amount, type, optional description and category reference; its date is the creation time unless one is given |
| `Models.NewBudgetGoal` | dollar_cli/models.py:44-47 | a new budget goal carries the given key, its category and target; its timeframe is "monthly" unless one is given |
| `Helpers.FindCategory` | dollar_cli/helpers.py:12 | the lookup finds the first category with exactly that name, or reports that no category has it |
| `Helpers.WithCategoryProperties` | dollar_cli/helpers.py:12-16 | get-or-create adds nothing for a known name and exactly one category, without a limit, for an unknown one; existing rows are unchanged, names stay unique, and the name is present afterwards |
| `Helpers.WithCategoryIdempotent` | dollar_cli/helpers.py:12-16 | a second get-or-create with the same name creates no second category |
| `Helpers.WithCategoryKeepsStore` | dollar_cli/models.py:19-21 | get-or-create keeps category names unique, keys numbered and every transaction's reference valid |
| `Helpers.AppendTransactionKeepsStore` | dollar_cli/helpers.py:19-28 | appending a transaction under the next key that references an existing category keeps the store invariant, and joining on its reference finds that category |
| `Helpers.WithBudgetLimitProperties` | dollar_cli/helpers.py:79-86 | afterwards exactly one category has the name, and it carries the limit; every other category keeps its row; at most one category is created; names stay unique |
| `Helpers.Store.constructor` | dollar_cli/__init__.py:9-18 | a new store is empty and satisfies the store invariant |
| `Helpers.Store.AddTransaction` | dollar_cli/helpers.py:6-29 | the categories become get-or-create of the name. A bad type string fails with no transaction added. Otherwise exactly one transaction is appended, with the next key, the given amount, description and type, dated `now`, in the category of that name. The store invariant is kept |
| `Helpers.Store.SetBudgetLimit` | dollar_cli/helpers.py:74-87 | the categories become get-or-create followed by setting the limit; transactions are unchanged; the returned category has the name and the limit and is in the table; the store invariant is kept |
| `Helpers.CategoryById` | dollar_cli/models.py:35-38 | following a transaction's reference finds a category of the table with that key, or none when no category has it |
| `Helpers.CategoryByIdNumbered` | dollar_cli/models.py:19 | with keys numbered from 1 the category with key k is the k-th row |
| `Helpers.Select` | dollar_cli/helpers.py:41-50 | a transaction is selected exactly when it is in the table and satisfies every given condition; nothing is selected more often than it occurs |
| `Helpers.SelectNothing` | dollar_cli/helpers.py:44 | when no row satisfies the conditions the selection is empty |
| `Helpers.SelectAppend` | dollar_cli/helpers.py:41-50 | selecting from two tables in turn is selecting from each |
| `Helpers.SumAmountsAppend` | dollar_cli/helpers.py:41-50 | the sum over two tables in turn is the sum of their sums |
| `Helpers.SelectedSumAppend` | dollar_cli/helpers.py:41-50 | appending a row adds its amount to the sum of a selection exactly when the row satisfies the conditions |
| `Helpers.SelectedSumReorder` | dollar_cli/helpers.py:41-50 | the sum of the selected amounts depends only on which rows the table holds, not on their order |
| `Helpers.MonthlySummary` | dollar_cli/helpers.py:31-53 | the balance is income minus expenses (and may be negative) |
| `Helpers.MonthlySummaryAppend` | dollar_cli/helpers.py:40-50 | a transaction dated at or after the start of the month adds its amount to the income if it is income and to the expenses if it is an expense; any other transaction changes neither |
| `Helpers.MonthlySummaryNothingThisMonth` | dollar_cli/helpers.py:40-50 | with nothing dated this month, an empty store included, the summary is (0, 0, 0) |
| `Helpers.MonthlySummaryReorder` | dollar_cli/helpers.py:40-53 | the summary does not depend on the order of the table's rows |
| `Helpers.InsertByDate` | dollar_cli/helpers.py:61 | inserting into the date order adds exactly that transaction |
| `Helpers.InsertByDateNewestFirst` | dollar_cli/helpers.py:61 | inserting into a newest-first list keeps it newest first |
| `Helpers.SortNewestFirst` | dollar_cli/helpers.py:61 | ordering by date is a permutation of the rows |
| `Helpers.SortNewestFirstOrdered` | dollar_cli/helpers.py:61 | ordering by date gives a list whose dates never increase |
| `Helpers.Limit` | dollar_cli/helpers.py:72 | the limited list is a prefix of the list; it holds exactly `limit` items when `0 <= limit` is below the list's length, and is the whole list otherwise (a negative limit sets no bound) |
| `Helpers.ListTransactions` | dollar_cli/helpers.py:55-72 | listing fails exactly when a non-empty type string names no member; otherwise it returns at most `limit` transactions when `limit` is not negative; the limit is 10 unless given |
| `Helpers.ListingSelection` | dollar_cli/helpers.py:63-69 | the filtered set is exactly the table's transactions whose category name and type value equal the non-empty filter strings |
| `Helpers.ListTransactionsFilteredAndOrdered` | dollar_cli/helpers.py:61-72 | every listed transaction passes the filters, comes from the table no more often than it occurs there, and the list is newest first |
| `Helpers.ListTransactionsNoNewerOmitted` | dollar_cli/helpers.py:61-72 | no transaction that passes the filters but was left out is newer than one listed; a list shorter than the limit (or a negative limit) leaves nothing out |
| `Helpers.ListTransactionsEmptyFilters` | dollar_cli/helpers.py:63-69 | an empty category string acts as an absent category filter and an empty type string as an absent type filter, each whatever the other filter is; with no filters the listing is the whole table newest first, limited |
| `Helpers.SelectEverything` | dollar_cli/helpers.py:61 | with no conditions every row is selected, in table order |
| `Helpers.GroupByNameRows` | dollar_cli/helpers.py:97-103 | each group names a category with an expense since the start of the month and carries the sum of those expenses |
| `Helpers.GroupByNameDistinct` | dollar_cli/helpers.py:103 | no category name appears in two groups |
| `Helpers.GroupByNameComplete` | dollar_cli/helpers.py:97-103 | every category name with an expense since the start of the month gets a group |
| `Helpers.CategorySpendingProperties` | dollar_cli/helpers.py:89-106 | names are distinct; each total is the sum of that category's expenses this month; a name appears exactly when its category has such an expense, so categories without one are omitted |
| `Scenarios.SummaryScenario` | dollar_cli/helpers.py:31-53 | a 50.00 Food expense and a 2000.00 Salary income recorded this month give (2000.00, 50.00, 1950.00) |
| `Scenarios.LatestFoodScenario` | dollar_cli/helpers.py:55-72 | with two Food transactions recorded at different times, a listing of one Food transaction gives the later one |
| `Scenarios.LatestOfTwo` | dollar_cli/helpers.py:61-72 | of two transactions of one category, a listing of one gives the newer; proved from the listing lemmas alone |

## Left out

- `get_budget_status`: `dollar_cli/cli.py` imports and calls it, but it is defined in none of the modelled files, so there is nothing to model it from.
- The command-line layer (`dollar_cli/cli.py`): option parsing, prompts and output are not modelled. Its checks that an amount or a limit is positive are not modelled either. The data layer accepts any amount and limit, and so does the model.
- Session and engine setup, and the commits: each call is one atomic state change. The one visible effect of the early commit in `add_transaction` is kept (see above). A crash between the two commits is not modelled.
- Floating point: amounts and limits are whole cents, so `SUM` is exact.
- The wall clock: `now` is a parameter. The timestamp a transaction receives is the `now` of the call that records it.
- A NULL `date`: the column is nullable, but `add_transaction` always fills it, so dates are not optional in the model. How SQL orders or compares NULL dates is not modelled.
- Order among equal dates: SQL leaves it unspecified. `SortNewestFirst` keeps table order for ties.
- Order of groups in `get_category_spending`: SQL leaves it unspecified. `CategorySpending` lists groups in the categories' table order.
- Unique-constraint and I/O failures of the database, and concurrent writers.
- Python `None` where the code expects a string or a number (a `None` category name, a `None` limit): names are strings and limits are integers in the model.
- `BudgetGoal`: no operation reads or writes the table. Only its record and default are modelled.
