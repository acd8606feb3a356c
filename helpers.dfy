/**
 * The data-access layer: a store holding the categories and transactions
 * tables, the two operations that write to it (recording a transaction,
 * setting a budget limit) and the three read-only queries over it (the
 * monthly summary, the filtered recent-transactions list, spending per
 * category). The clock is an explicit `now` argument.
 */
module Helpers {
  import opened Wrappers
  import opened Models

  /** The ValueError raised when a string names no TransactionType member. */
  datatype Error = InvalidTransactionType(value: string)

  // ---------------------------------------------------------------------
  // Get-or-create of a category by exact name
  // ---------------------------------------------------------------------

  /** The first category called `name`, as an index into the table. */
  function FindCategory(cats: seq<Category>, name: string): (r: Option<nat>)
    ensures r.Some? ==> r.value < |cats| && cats[r.value].name == name
    ensures r.Some? ==> forall i :: 0 <= i < r.value ==> cats[i].name != name
    ensures r.None? ==> forall i :: 0 <= i < |cats| ==> cats[i].name != name
  {
    if cats == [] then None
    else if cats[0].name == name then Some(0)
    else match FindCategory(cats[1..], name)
      case None => None
      case Some(i) => Some(i + 1)
  }

  /**
   * The categories table after looking `name` up and, when it is missing,
   * inserting a category of that name with no budget limit under the next key.
   */
  function WithCategory(cats: seq<Category>, name: string): seq<Category>
  {
    if FindCategory(cats, name).Some? then cats
    else cats + [Category(|cats| + 1, name, None)]
  }

  /**
   * Get-or-create adds no category when the name is present and exactly one,
   * without a limit, when it is not; it keeps names unique and keys numbered,
   * changes no existing row, and afterwards the name is present.
   */
  lemma WithCategoryProperties(cats: seq<Category>, name: string)
    requires UniqueNames(cats) && NumberedCategories(cats)
    ensures var r := WithCategory(cats, name);
      && UniqueNames(r) && NumberedCategories(r)
      && r[..|cats|] == cats
      && (FindCategory(cats, name).Some? ==> r == cats)
      && (FindCategory(cats, name).None? ==>
            |r| == |cats| + 1 && r[|cats|].name == name && r[|cats|].budgetLimit.None?)
      && FindCategory(r, name).Some?
  {
  }

  /** Looking the same name up twice creates no second category. */
  lemma WithCategoryIdempotent(cats: seq<Category>, name: string)
    ensures WithCategory(WithCategory(cats, name), name) == WithCategory(cats, name)
  {
    var r := WithCategory(cats, name);
    if FindCategory(cats, name).None? {
      assert r[|cats|].name == name;
    }
  }

  /**
   * The categories table after get-or-create of `name` followed by setting
   * that category's budget limit.
   */
  function WithBudgetLimit(cats: seq<Category>, name: string, limit: int): seq<Category>
  {
    var created := WithCategory(cats, name);
    match FindCategory(created, name)
    case None => created
    case Some(i) => created[i := created[i].(budgetLimit := Some(limit))]
  }

  /**
   * Setting a limit leaves exactly one category called `name`, and it carries
   * the limit; every other category keeps its row; at most one category is
   * created; names stay unique and keys numbered.
   */
  lemma WithBudgetLimitProperties(cats: seq<Category>, name: string, limit: int)
    requires UniqueNames(cats) && NumberedCategories(cats)
    ensures var r := WithBudgetLimit(cats, name, limit);
      && UniqueNames(r) && NumberedCategories(r)
      && |cats| <= |r| <= |cats| + 1
      && (FindCategory(cats, name).Some? ==> |r| == |cats|)
      && (exists i :: 0 <= i < |r| && r[i].name == name)
      && (forall i :: 0 <= i < |r| && r[i].name == name ==> r[i].budgetLimit == Some(limit))
      && (forall i :: 0 <= i < |cats| && cats[i].name != name ==> r[i] == cats[i])
      && (forall i :: 0 <= i < |cats| ==> r[i].id == cats[i].id && r[i].name == cats[i].name)
  {
    WithCategoryProperties(cats, name);
    var created := WithCategory(cats, name);
    var i := FindCategory(created, name).value;
    var r := WithBudgetLimit(cats, name, limit);
    assert r == created[i := created[i].(budgetLimit := Some(limit))];
    assert r[i].name == name;
    forall k | 0 <= k < |cats| ensures r[k].id == cats[k].id && r[k].name == cats[k].name {
      assert created[k] == cats[k];
    }
    forall k | 0 <= k < |r| && r[k].name == name ensures r[k].budgetLimit == Some(limit) {
      if k != i {
        assert false;
      }
    }
  }

  /** Get-or-create keeps the store invariant. */
  lemma WithCategoryKeepsStore(cats: seq<Category>, ts: seq<Transaction>, name: string)
    requires StoreInvariant(cats, ts)
    ensures StoreInvariant(WithCategory(cats, name), ts)
  {
  }

  /**
   * Appending a transaction under the next key that references an existing
   * category keeps the store invariant, and the join finds that category.
   */
  lemma AppendTransactionKeepsStore(cats: seq<Category>, ts: seq<Transaction>, t: Transaction)
    requires StoreInvariant(cats, ts)
    requires t.id == |ts| + 1 && t.categoryId.Some? && 1 <= t.categoryId.value <= |cats|
    ensures StoreInvariant(cats, ts + [t])
    ensures CategoryNameOf(cats, t) == Some(cats[t.categoryId.value - 1].name)
  {
  }

  // ---------------------------------------------------------------------
  // The store and its two writing operations
  // ---------------------------------------------------------------------

  /** The two tables the data-access layer reads and writes. */
  class Store {
    var categories: seq<Category>
    var transactions: seq<Transaction>

    ghost predicate Valid()
      reads this
    {
      StoreInvariant(categories, transactions)
    }

    /** A freshly migrated, empty store. */
    constructor ()
      ensures Valid() && categories == [] && transactions == []
    {
      categories := [];
      transactions := [];
    }

    /**
     * Records a transaction dated `now` under the category called
     * `categoryName`, creating that category first when it does not exist.
     * The category is committed before the type string is converted, so a
     * type string that is neither "income" nor "expense" fails after the
     * category has been created, and no transaction is added.
     */
    method AddTransaction(amount: int, description: Option<string>, categoryName: string,
                          transactionType: string, now: DateTime)
      returns (r: Result<Transaction, Error>)
      requires Valid()
      modifies this
      ensures Valid()
      ensures categories == WithCategory(old(categories), categoryName)
      ensures ParseTransactionType(transactionType).None? ==>
                r == Failure(InvalidTransactionType(transactionType)) &&
                transactions == old(transactions)
      ensures ParseTransactionType(transactionType).Some? ==>
                r.Success? && transactions == old(transactions) + [r.value]
      ensures r.Success? ==>
                && r.value.id == |old(transactions)| + 1
                && r.value.amount == amount && r.value.description == description
                && r.value.date == now
                && TypeValue(r.value.transactionType) == transactionType
                && CategoryNameOf(categories, r.value) == Some(categoryName)
    {
      var found := FindCategory(categories, categoryName);
      var category: Category;
      if found.None? {
        category := Category(|categories| + 1, categoryName, None);
        categories := categories + [category];
      } else {
        category := categories[found.value];
      }
      WithCategoryKeepsStore(old(categories), transactions, categoryName);
      assert 1 <= category.id <= |categories| && categories[category.id - 1] == category;
      match ParseTransactionType(transactionType) {
        case None =>
          r := Failure(InvalidTransactionType(transactionType));
        case Some(kind) =>
          var t := NewTransaction(|transactions| + 1, amount, description, None,
                                  kind, Some(category.id), now);
          AppendTransactionKeepsStore(categories, transactions, t);
          transactions := transactions + [t];
          r := Success(t);
      }
    }

    /**
     * Sets the budget limit of the category called `categoryName`, creating
     * the category first when it does not exist; returns that category.
     */
    method SetBudgetLimit(categoryName: string, limit: int) returns (c: Category)
      requires Valid()
      modifies this
      ensures Valid()
      ensures categories == WithBudgetLimit(old(categories), categoryName, limit)
      ensures transactions == old(transactions)
      ensures c in categories && c.name == categoryName && c.budgetLimit == Some(limit)
    {
      WithCategoryProperties(categories, categoryName);
      WithBudgetLimitProperties(categories, categoryName, limit);
      var found := FindCategory(categories, categoryName);
      var index: nat;
      if found.None? {
        categories := categories + [Category(|categories| + 1, categoryName, None)];
        index := |categories| - 1;
      } else {
        index := found.value;
      }
      c := categories[index].(budgetLimit := Some(limit));
      categories := categories[index := c];
    }
  }

  // ---------------------------------------------------------------------
  // Selecting transactions (the WHERE clauses of the queries)
  // ---------------------------------------------------------------------

  /** The category whose primary key is `id`, if any. */
  function CategoryById(cats: seq<Category>, id: nat): (r: Option<Category>)
    ensures r.Some? ==> r.value in cats && r.value.id == id
    ensures r.None? ==> forall c :: c in cats ==> c.id != id
  {
    if cats == [] then None
    else if cats[0].id == id then Some(cats[0])
    else CategoryById(cats[1..], id)
  }

  /** With numbered keys, the category with key `id` is the `id`-th row. */
  lemma CategoryByIdNumbered(cats: seq<Category>, id: nat)
    requires NumberedCategories(cats)
    ensures CategoryById(cats, id) == if 1 <= id <= |cats| then Some(cats[id - 1]) else None
  {
  }

  /** The name of a transaction's category, found by joining on the foreign key. */
  function CategoryNameOf(cats: seq<Category>, t: Transaction): Option<string>
  {
    match t.categoryId
    case None => None
    case Some(id) =>
      match CategoryById(cats, id)
      case None => None
      case Some(c) => Some(c.name)
  }

  /** The conditions a query may put on a transaction; `None` puts none. */
  datatype Criteria = Criteria(categoryName: Option<string>,
                               transactionType: Option<TransactionType>,
                               since: Option<DateTime>)

  predicate Satisfies(cats: seq<Category>, t: Transaction, c: Criteria)
  {
    && (c.categoryName.None? || CategoryNameOf(cats, t) == c.categoryName)
    && (c.transactionType.None? || t.transactionType == c.transactionType.value)
    && (c.since.None? || AtOrBefore(c.since.value, t.date))
  }

  /** The transactions that satisfy `c`, in table order. */
  function Select(cats: seq<Category>, ts: seq<Transaction>, c: Criteria): (r: seq<Transaction>)
    ensures forall t :: t in r <==> t in ts && Satisfies(cats, t, c)
    ensures multiset(r) <= multiset(ts)
  {
    if ts == [] then []
    else
      assert ts == [ts[0]] + ts[1..];
      if Satisfies(cats, ts[0], c) then [ts[0]] + Select(cats, ts[1..], c)
      else Select(cats, ts[1..], c)
  }

  /** Selecting from two tables one after the other selects from each. */
  lemma {:induction false} SelectAppend(cats: seq<Category>, a: seq<Transaction>,
                                        b: seq<Transaction>, c: Criteria)
    ensures Select(cats, a + b, c) == Select(cats, a, c) + Select(cats, b, c)
  {
    if a == [] {
      assert a + b == b;
    } else {
      assert (a + b)[1..] == a[1..] + b;
      SelectAppend(cats, a[1..], b, c);
    }
  }

  /** When no transaction satisfies the criteria, nothing is selected. */
  lemma {:induction false} SelectNothing(cats: seq<Category>, ts: seq<Transaction>, c: Criteria)
    requires forall t :: t in ts ==> !Satisfies(cats, t, c)
    ensures Select(cats, ts, c) == []
  {
    if ts != [] {
      assert ts[0] in ts;
      SelectNothing(cats, ts[1..], c);
    }
  }

  /** `SUM(amount)`, with the empty sum (NULL in SQL) read as 0. */
  function SumAmounts(s: seq<Transaction>): int
  {
    if s == [] then 0 else s[0].amount + SumAmounts(s[1..])
  }

  lemma {:induction false} SumAmountsAppend(a: seq<Transaction>, b: seq<Transaction>)
    ensures SumAmounts(a + b) == SumAmounts(a) + SumAmounts(b)
  {
    if a == [] {
      assert a + b == b;
    } else {
      assert (a + b)[1..] == a[1..] + b;
      SumAmountsAppend(a[1..], b);
    }
  }

  /** Taking one row out of the middle of a table takes its share out of the sum. */
  lemma SelectedSumSplit(cats: seq<Category>, front: seq<Transaction>, x: Transaction,
                         back: seq<Transaction>, c: Criteria)
    ensures SumAmounts(Select(cats, front + [x] + back, c)) ==
            SumAmounts(Select(cats, [x], c)) + SumAmounts(Select(cats, front + back, c))
  {
    SelectAppend(cats, front + [x], back, c);
    SelectAppend(cats, front, [x], c);
    SumAmountsAppend(Select(cats, front, c) + Select(cats, [x], c), Select(cats, back, c));
    SumAmountsAppend(Select(cats, front, c), Select(cats, [x], c));
    SelectAppend(cats, front, back, c);
    SumAmountsAppend(Select(cats, front, c), Select(cats, back, c));
  }

  /** Taking the first row of `a` and a copy of it out of `b` leaves equal multisets. */
  lemma RemoveMatching(a: seq<Transaction>, b: seq<Transaction>, k: nat)
    requires multiset(a) == multiset(b) && a != [] && k < |b| && b[k] == a[0]
    ensures b == b[..k] + [a[0]] + b[k + 1..]
    ensures multiset(a[1..]) == multiset(b[..k] + b[k + 1..])
  {
    var x, front, back := a[0], b[..k], b[k + 1..];
    assert b == front + [x] + back;
    assert a == [x] + a[1..];
    calc {
      multiset(a[1..]) + multiset{x};
      multiset(b);
      multiset(front + back) + multiset{x};
    }
    assert multiset(a[1..]) == multiset(a[1..]) + multiset{x} - multiset{x};
  }

  /** The sum of what is selected depends only on which rows the table holds, not on their order. */
  lemma {:induction false} SelectedSumReorder(cats: seq<Category>, a: seq<Transaction>,
                                              b: seq<Transaction>, c: Criteria)
    requires multiset(a) == multiset(b)
    ensures SumAmounts(Select(cats, a, c)) == SumAmounts(Select(cats, b, c))
    decreases |a|
  {
    if a == [] {
      assert |b| == |multiset(b)| == 0;
    } else {
      var x := a[0];
      assert x in multiset(b);
      var k :| 0 <= k < |b| && b[k] == x;
      var front, back := b[..k], b[k + 1..];
      RemoveMatching(a, b, k);
      assert a == [x] + a[1..];
      SelectedSumReorder(cats, a[1..], front + back, c);
      SelectAppend(cats, [x], a[1..], c);
      SumAmountsAppend(Select(cats, [x], c), Select(cats, a[1..], c));
      SelectedSumSplit(cats, front, x, back, c);
    }
  }

  // ---------------------------------------------------------------------
  // The monthly summary
  // ---------------------------------------------------------------------

  /** Income, expenses and balance of one month. */
  datatype Summary = Summary(income: int, expenses: int, balance: int)

  /** The transactions of type `kind` dated at or after the start of `now`'s month. */
  function ThisMonth(cats: seq<Category>, ts: seq<Transaction>, kind: TransactionType,
                     now: DateTime): seq<Transaction>
  {
    Select(cats, ts, Criteria(None, Some(kind), Some(StartOfMonth(now))))
  }

  /**
   * The month's income and expenses, each the sum of the amounts of the
   * transactions of that type dated at or after the start of `now`'s month
   * (0 when there are none); the balance is income minus expenses and may be
   * negative.
   */
  function MonthlySummary(cats: seq<Category>, ts: seq<Transaction>, now: DateTime): (s: Summary)
    ensures s.balance == s.income - s.expenses
  {
    var income := SumAmounts(ThisMonth(cats, ts, Income, now));
    var expenses := SumAmounts(ThisMonth(cats, ts, Expense, now));
    Summary(income, expenses, income - expenses)
  }

  /** Appending a row adds its amount to a selection's sum exactly when it is selected. */
  lemma SelectedSumAppend(cats: seq<Category>, ts: seq<Transaction>, t: Transaction, c: Criteria)
    ensures SumAmounts(Select(cats, ts + [t], c)) ==
            SumAmounts(Select(cats, ts, c)) + (if Satisfies(cats, t, c) then t.amount else 0)
  {
    SelectAppend(cats, ts, [t], c);
    SumAmountsAppend(Select(cats, ts, c), Select(cats, [t], c));
  }

  /** A transaction with amount x dated this month adds x to its own side only. */
  lemma MonthlySummaryAppend(cats: seq<Category>, ts: seq<Transaction>, t: Transaction, now: DateTime)
    ensures var before := MonthlySummary(cats, ts, now);
      var after := MonthlySummary(cats, ts + [t], now);
      var counted := AtOrBefore(StartOfMonth(now), t.date);
      && after.income == before.income + (if counted && t.transactionType == Income then t.amount else 0)
      && after.expenses == before.expenses + (if counted && t.transactionType == Expense then t.amount else 0)
  {
    SelectedSumAppend(cats, ts, t, Criteria(None, Some(Income), Some(StartOfMonth(now))));
    SelectedSumAppend(cats, ts, t, Criteria(None, Some(Expense), Some(StartOfMonth(now))));
  }

  /** The summary does not depend on the order in which the table holds its rows. */
  lemma MonthlySummaryReorder(cats: seq<Category>, a: seq<Transaction>, b: seq<Transaction>, now: DateTime)
    requires multiset(a) == multiset(b)
    ensures MonthlySummary(cats, a, now) == MonthlySummary(cats, b, now)
  {
    SelectedSumReorder(cats, a, b, Criteria(None, Some(Income), Some(StartOfMonth(now))));
    SelectedSumReorder(cats, a, b, Criteria(None, Some(Expense), Some(StartOfMonth(now))));
  }

  /** When nothing is dated this month the summary is (0, 0, 0); in particular for an empty store. */
  lemma MonthlySummaryNothingThisMonth(cats: seq<Category>, ts: seq<Transaction>, now: DateTime)
    requires forall t :: t in ts ==> !AtOrBefore(StartOfMonth(now), t.date)
    ensures MonthlySummary(cats, ts, now) == Summary(0, 0, 0)
  {
    SelectNothing(cats, ts, Criteria(None, Some(Income), Some(StartOfMonth(now))));
    SelectNothing(cats, ts, Criteria(None, Some(Expense), Some(StartOfMonth(now))));
  }

  // ---------------------------------------------------------------------
  // Listing recent transactions
  // ---------------------------------------------------------------------

  /** Dates never increase along `s`: the newest transaction comes first. */
  ghost predicate NewestFirst(s: seq<Transaction>)
  {
    forall i, j :: 0 <= i < j < |s| ==> AtOrBefore(s[j].date, s[i].date)
  }

  /**
   * Puts `t` before the first transaction not newer than it; transactions
   * with equal dates keep their table order.
   */
  function InsertByDate(t: Transaction, s: seq<Transaction>): (r: seq<Transaction>)
    ensures multiset(r) == multiset(s) + multiset{t}
  {
    if s == [] || AtOrBefore(s[0].date, t.date) then [t] + s
    else
      assert s == [s[0]] + s[1..];
      [s[0]] + InsertByDate(t, s[1..])
  }

  lemma {:induction false} InsertByDateNewestFirst(t: Transaction, s: seq<Transaction>)
    requires NewestFirst(s)
    ensures NewestFirst(InsertByDate(t, s))
  {
    var r := InsertByDate(t, s);
    if s == [] || AtOrBefore(s[0].date, t.date) {
      forall i, j | 0 <= i < j < |r| ensures AtOrBefore(r[j].date, r[i].date) {
        if i == 0 {
          assert r[j] == s[j - 1];
          if j > 1 {
            AtOrBeforeTransitive(s[j - 1].date, s[0].date, t.date);
          }
        } else {
          assert r[i] == s[i - 1] && r[j] == s[j - 1];
        }
      }
    } else {
      var rest := InsertByDate(t, s[1..]);
      InsertByDateNewestFirst(t, s[1..]);
      AtOrBeforeTotal(s[0].date, t.date);
      forall i, j | 0 <= i < j < |r| ensures AtOrBefore(r[j].date, r[i].date) {
        if i == 0 {
          var x := r[j];
          assert x == rest[j - 1];
          assert x in multiset(rest);
          assert x == t || x in multiset(s[1..]);
          if x != t {
            var k :| 0 <= k < |s[1..]| && s[1..][k] == x;
            assert s[k + 1] == x;
          }
        } else {
          assert r[i] == rest[i - 1] && r[j] == rest[j - 1];
        }
      }
    }
  }

  /** The table ordered by date, newest first (ORDER BY date DESC). */
  function SortNewestFirst(s: seq<Transaction>): (r: seq<Transaction>)
    ensures multiset(r) == multiset(s)
  {
    if s == [] then []
    else
      assert s == [s[0]] + s[1..];
      InsertByDate(s[0], SortNewestFirst(s[1..]))
  }

  lemma {:induction false} SortNewestFirstOrdered(s: seq<Transaction>)
    ensures NewestFirst(SortNewestFirst(s))
  {
    if s != [] {
      SortNewestFirstOrdered(s[1..]);
      InsertByDateNewestFirst(s[0], SortNewestFirst(s[1..]));
    }
  }

  /** LIMIT: the first `limit` rows; a negative limit sets no bound. */
  function Limit(s: seq<Transaction>, limit: int): (r: seq<Transaction>)
    ensures 0 <= limit ==> |r| <= limit
    ensures r <= s
    ensures (limit < 0 || |s| <= limit) ==> r == s
    ensures |r| == if 0 <= limit < |s| then limit else |s|
  {
    if 0 <= limit < |s| then s[..limit] else s
  }

  /** A filter string applies only when it is present and non-empty. */
  function CategoryFilter(category: Option<string>): Option<string>
  {
    if category.Some? && category.value != "" then category else None
  }

  /** The type filter: absent, a member, or the ValueError of an unknown value. */
  function TypeFilter(transactionType: Option<string>): Result<Option<TransactionType>, Error>
  {
    if transactionType.None? || transactionType.value == "" then Success(None)
    else match ParseTransactionType(transactionType.value)
      case None => Failure(InvalidTransactionType(transactionType.value))
      case Some(kind) => Success(Some(kind))
  }

  /**
   * The most recent `limit` transactions, newest first, restricted to the
   * category called `category` and to the type `transactionType` when those
   * are given; an unknown type string is an error. The limit is 10 unless given.
   */
  function ListTransactions(cats: seq<Category>, ts: seq<Transaction>, limit: int := 10,
                            category: Option<string>, transactionType: Option<string>)
    : (r: Result<seq<Transaction>, Error>)
    ensures r.Failure? <==>
              transactionType.Some? && transactionType.value != "" &&
              ParseTransactionType(transactionType.value).None?
    ensures r.Failure? ==> r.error == InvalidTransactionType(transactionType.value)
    ensures r.Success? && 0 <= limit ==> |r.value| <= limit
  {
    match TypeFilter(transactionType)
    case Failure(e) => Failure(e)
    case Success(kind) =>
      Success(Limit(SortNewestFirst(Select(cats, ts, Criteria(CategoryFilter(category), kind, None))), limit))
  }

  /**
   * `t` passes the listing's filters: an absent or empty filter string lets
   * everything through, otherwise the category's name, or the type's value,
   * must equal it.
   */
  ghost predicate Listable(cats: seq<Category>, t: Transaction,
                           category: Option<string>, transactionType: Option<string>)
  {
    && (category.None? || category.value == "" || CategoryNameOf(cats, t) == category)
    && (transactionType.None? || transactionType.value == "" ||
        TypeValue(t.transactionType) == transactionType.value)
  }

  /** The selection a successful listing sorts and truncates holds exactly the listable transactions. */
  lemma ListingSelection(cats: seq<Category>, ts: seq<Transaction>,
                         category: Option<string>, transactionType: Option<string>)
    requires TypeFilter(transactionType).Success?
    ensures forall t :: t in Select(cats, ts, Criteria(CategoryFilter(category), TypeFilter(transactionType).value, None)) <==>
              t in ts && Listable(cats, t, category, transactionType)
  {
  }

  /** A prefix holds each element at most as often as the whole. */
  lemma PrefixMultiset(a: seq<Transaction>, b: seq<Transaction>)
    requires a <= b
    ensures multiset(a) <= multiset(b)
  {
    assert b == a + b[|a|..];
  }

  /**
   * Every listed transaction passes the filters and is listed no more often
   * than it occurs in the table; the list is ordered newest first.
   */
  lemma ListTransactionsFilteredAndOrdered(cats: seq<Category>, ts: seq<Transaction>, limit: int,
                                           category: Option<string>, transactionType: Option<string>)
    requires ListTransactions(cats, ts, limit, category, transactionType).Success?
    ensures var listed := ListTransactions(cats, ts, limit, category, transactionType).value;
      && NewestFirst(listed)
      && multiset(listed) <= multiset(ts)
      && (forall t :: t in listed ==> Listable(cats, t, category, transactionType))
  {
    var selected := Select(cats, ts, Criteria(CategoryFilter(category), TypeFilter(transactionType).value, None));
    var sorted := SortNewestFirst(selected);
    var listed := Limit(sorted, limit);
    ListingSelection(cats, ts, category, transactionType);
    SortNewestFirstOrdered(selected);
    PrefixMultiset(listed, sorted);
    forall t | t in listed ensures Listable(cats, t, category, transactionType) {
      assert t in multiset(listed);
    }
  }

  /**
   * No listable transaction left out of the list is newer than one in it, and
   * when the list comes back shorter than the limit (or the limit is
   * negative) nothing listable was left out.
   */
  lemma ListTransactionsNoNewerOmitted(cats: seq<Category>, ts: seq<Transaction>, limit: int,
                                       category: Option<string>, transactionType: Option<string>)
    requires ListTransactions(cats, ts, limit, category, transactionType).Success?
    ensures var listed := ListTransactions(cats, ts, limit, category, transactionType).value;
      && (forall u, v ::
            (u in ts && Listable(cats, u, category, transactionType) && u !in listed && v in listed)
            ==> AtOrBefore(u.date, v.date))
      && ((limit < 0 || |listed| < limit) ==>
            forall u :: u in ts && Listable(cats, u, category, transactionType) ==> u in listed)
  {
    var selected := Select(cats, ts, Criteria(CategoryFilter(category), TypeFilter(transactionType).value, None));
    var sorted := SortNewestFirst(selected);
    var listed := Limit(sorted, limit);
    ListingSelection(cats, ts, category, transactionType);
    SortNewestFirstOrdered(selected);
    assert listed == sorted[..|listed|];
    forall u | u in ts && Listable(cats, u, category, transactionType) && u !in listed
      ensures |listed| < |sorted|
      ensures forall v :: v in listed ==> AtOrBefore(u.date, v.date)
    {
      assert u in multiset(sorted);
      var j :| 0 <= j < |sorted| && sorted[j] == u;
      if j < |listed| {
        assert false;
      }
      forall v | v in listed ensures AtOrBefore(u.date, v.date) {
        var i :| 0 <= i < |listed| && listed[i] == v;
        assert sorted[i] == v;
      }
    }
  }

  /**
   * An empty filter string filters nothing, whichever filter it is and
   * whatever the other filter is.
   */
  lemma ListTransactionsEmptyFilters(cats: seq<Category>, ts: seq<Transaction>, limit: int,
                                     category: Option<string>, transactionType: Option<string>)
    ensures ListTransactions(cats, ts, limit, Some(""), transactionType) ==
            ListTransactions(cats, ts, limit, None, transactionType)
    ensures ListTransactions(cats, ts, limit, category, Some("")) ==
            ListTransactions(cats, ts, limit, category, None)
    ensures ListTransactions(cats, ts, limit, None, None) ==
            Success(Limit(SortNewestFirst(ts), limit))
  {
    SelectEverything(cats, ts);
  }

  /** Criteria that ask for nothing let every transaction through. */
  lemma {:induction false} SelectEverything(cats: seq<Category>, ts: seq<Transaction>)
    ensures Select(cats, ts, Criteria(None, None, None)) == ts
  {
    if ts != [] {
      SelectEverything(cats, ts[1..]);
    }
  }

  // ---------------------------------------------------------------------
  // Spending per category
  // ---------------------------------------------------------------------

  /** The expenses dated at or after `start` in categories called `name`. */
  function ExpensesIn(cats: seq<Category>, ts: seq<Transaction>, name: string,
                      start: DateTime): seq<Transaction>
  {
    Select(cats, ts, Criteria(Some(name), Some(Expense), Some(start)))
  }

  /**
   * GROUP BY category name over the join of categories with their expenses:
   * one (name, total) pair per name of `groups` not in `seen` that has at
   * least one expense since `start`.
   */
  function GroupByName(cats: seq<Category>, groups: seq<Category>, ts: seq<Transaction>,
                       start: DateTime, seen: set<string>): seq<(string, int)>
  {
    if groups == [] then []
    else
      var name := groups[0].name;
      var rows := ExpensesIn(cats, ts, name, start);
      var rest := GroupByName(cats, groups[1..], ts, start, seen + {name});
      if name !in seen && rows != [] then [(name, SumAmounts(rows))] + rest else rest
  }

  /** Spending per category name this month, for the categories that have any. */
  function CategorySpending(cats: seq<Category>, ts: seq<Transaction>, now: DateTime)
    : seq<(string, int)>
  {
    GroupByName(cats, cats, ts, StartOfMonth(now), {})
  }

  /** The category called `name` has at least one expense dated at or after `start`. */
  ghost predicate HasExpenses(cats: seq<Category>, ts: seq<Transaction>, name: string, start: DateTime)
  {
    exists t :: t in ts && Satisfies(cats, t, Criteria(Some(name), Some(Expense), Some(start)))
  }

  /** No name occurs twice among the pairs. */
  ghost predicate DistinctNames(r: seq<(string, int)>)
  {
    forall i, j :: 0 <= i < j < |r| ==> r[i].0 != r[j].0
  }

  /** Some pair carries `name`. */
  ghost predicate Named(r: seq<(string, int)>, name: string)
  {
    exists i :: 0 <= i < |r| && r[i].0 == name
  }

  /**
   * The pair names a category, not in `seen`, with expenses since `start`,
   * and carries the sum of those expenses.
   */
  ghost predicate SpendingRow(cats: seq<Category>, ts: seq<Transaction>, start: DateTime,
                              seen: set<string>, p: (string, int))
  {
    p.0 !in seen && HasExpenses(cats, ts, p.0, start) &&
    p.1 == SumAmounts(ExpensesIn(cats, ts, p.0, start))
  }

  lemma {:induction false} GroupByNameRows(cats: seq<Category>, groups: seq<Category>,
                                           ts: seq<Transaction>, start: DateTime, seen: set<string>)
    ensures forall p :: p in GroupByName(cats, groups, ts, start, seen) ==>
              SpendingRow(cats, ts, start, seen, p)
  {
    if groups != [] {
      var name := groups[0].name;
      var rows := ExpensesIn(cats, ts, name, start);
      var rest := GroupByName(cats, groups[1..], ts, start, seen + {name});
      GroupByNameRows(cats, groups[1..], ts, start, seen + {name});
      if name !in seen && rows != [] {
        assert rows[0] in rows;
        assert SpendingRow(cats, ts, start, seen, (name, SumAmounts(rows)));
      }
    }
  }

  lemma {:induction false} GroupByNameDistinct(cats: seq<Category>, groups: seq<Category>,
                                               ts: seq<Transaction>, start: DateTime, seen: set<string>)
    ensures DistinctNames(GroupByName(cats, groups, ts, start, seen))
  {
    if groups != [] {
      var name := groups[0].name;
      var rows := ExpensesIn(cats, ts, name, start);
      var rest := GroupByName(cats, groups[1..], ts, start, seen + {name});
      var r := GroupByName(cats, groups, ts, start, seen);
      GroupByNameDistinct(cats, groups[1..], ts, start, seen + {name});
      GroupByNameRows(cats, groups[1..], ts, start, seen + {name});
      if name !in seen && rows != [] {
        assert r == [(name, SumAmounts(rows))] + rest;
        forall i, j | 0 <= i < j < |r| ensures r[i].0 != r[j].0 {
          assert r[j] == rest[j - 1];
          assert SpendingRow(cats, ts, start, seen + {name}, rest[j - 1]);
          if i > 0 {
            assert r[i] == rest[i - 1];
          }
        }
      }
    }
  }

  lemma {:induction false} GroupByNameComplete(cats: seq<Category>, groups: seq<Category>,
                                               ts: seq<Transaction>, start: DateTime, seen: set<string>)
    ensures forall g :: g in groups && g.name !in seen && HasExpenses(cats, ts, g.name, start) ==>
              Named(GroupByName(cats, groups, ts, start, seen), g.name)
  {
    if groups != [] {
      var name := groups[0].name;
      var rows := ExpensesIn(cats, ts, name, start);
      var rest := GroupByName(cats, groups[1..], ts, start, seen + {name});
      var r := GroupByName(cats, groups, ts, start, seen);
      GroupByNameComplete(cats, groups[1..], ts, start, seen + {name});
      forall g | g in groups && g.name !in seen && HasExpenses(cats, ts, g.name, start)
        ensures Named(r, g.name)
      {
        if g.name == name {
          var t :| t in ts && Satisfies(cats, t, Criteria(Some(name), Some(Expense), Some(start)));
          assert t in rows;
          assert r[0].0 == name;
        } else {
          assert g in groups[1..];
          assert Named(rest, g.name);
          var i :| 0 <= i < |rest| && rest[i].0 == g.name;
          if name !in seen && rows != [] {
            assert r[i + 1] == rest[i];
          } else {
            assert r[i] == rest[i];
          }
        }
      }
    }
  }

  /**
   * The spending list names each category with expenses this month exactly
   * once, with the sum of those expenses, and omits every other name.
   */
  lemma CategorySpendingProperties(cats: seq<Category>, ts: seq<Transaction>, now: DateTime)
    ensures DistinctNames(CategorySpending(cats, ts, now))
    ensures forall i :: 0 <= i < |CategorySpending(cats, ts, now)| ==>
              CategorySpending(cats, ts, now)[i].1 ==
              SumAmounts(ExpensesIn(cats, ts, CategorySpending(cats, ts, now)[i].0, StartOfMonth(now)))
    ensures forall name :: Named(CategorySpending(cats, ts, now), name) <==>
              HasExpenses(cats, ts, name, StartOfMonth(now))
  {
    var start := StartOfMonth(now);
    var r := CategorySpending(cats, ts, now);
    GroupByNameRows(cats, cats, ts, start, {});
    GroupByNameDistinct(cats, cats, ts, start, {});
    GroupByNameComplete(cats, cats, ts, start, {});
    forall i | 0 <= i < |r| ensures r[i].1 == SumAmounts(ExpensesIn(cats, ts, r[i].0, start)) {
      assert SpendingRow(cats, ts, start, {}, r[i]);
    }
    forall name ensures Named(r, name) <==> HasExpenses(cats, ts, name, start) {
      if Named(r, name) {
        var i :| 0 <= i < |r| && r[i].0 == name;
        assert SpendingRow(cats, ts, start, {}, r[i]);
      }
      if HasExpenses(cats, ts, name, start) {
        var t :| t in ts && Satisfies(cats, t, Criteria(Some(name), Some(Expense), Some(start)));
        var c := CategoryById(cats, t.categoryId.value).value;
        assert c in cats && c.name == name;
      }
    }
  }
}
