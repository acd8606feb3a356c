/**
 * The entities of the budget tracker's store: the transaction type enumeration,
 * the Category, Transaction and BudgetGoal records, the timestamps they carry,
 * and the constraints the schema puts on a table of them.
 *
 * Money amounts are whole cents (`int`) rather than floating point.
 */
module Models {
  import opened Wrappers

  /** Income or expense; each member's string value is given by TypeValue. */
  datatype TransactionType = Income | Expense

  /** The string value behind each enumeration member. */
  function TypeValue(t: TransactionType): string
  {
    match t
    case Income => "income"
    case Expense => "expense"
  }

  /**
   * Converting a string into the enumeration looks the member up by its value;
   * `None` stands for the ValueError raised for every other string.
   */
  function ParseTransactionType(s: string): (r: Option<TransactionType>)
    ensures r.Some? ==> TypeValue(r.value) == s
    ensures r.None? ==> forall t: TransactionType :: TypeValue(t) != s
  {
    if s == "income" then Some(Income)
    else if s == "expense" then Some(Expense)
    else None
  }

  /** Converting a member's own value gives that member back. */
  lemma ParseTypeValue(t: TransactionType)
    ensures ParseTransactionType(TypeValue(t)) == Some(t)
  {
  }

  /** A naive (time-zone free) timestamp, as stored in a DateTime column. */
  datatype DateTime = DateTime(year: int, month: int, day: int,
                               hour: int, minute: int, second: int, microsecond: int)
  {
    /** The ranges every calendar timestamp's fields lie in. */
    ghost predicate Valid()
    {
      1 <= month <= 12 && 1 <= day <= 31 && 0 <= hour < 24 &&
      0 <= minute < 60 && 0 <= second < 60 && 0 <= microsecond < 1000000
    }
  }

  /** `a <= b` on timestamps: fields compared in turn, the year first. */
  predicate AtOrBefore(a: DateTime, b: DateTime)
  {
    if a.year != b.year then a.year < b.year
    else if a.month != b.month then a.month < b.month
    else if a.day != b.day then a.day < b.day
    else if a.hour != b.hour then a.hour < b.hour
    else if a.minute != b.minute then a.minute < b.minute
    else if a.second != b.second then a.second < b.second
    else a.microsecond <= b.microsecond
  }

  /** Any two timestamps are ordered one way or the other. */
  lemma AtOrBeforeTotal(a: DateTime, b: DateTime)
    ensures AtOrBefore(a, b) || AtOrBefore(b, a)
  {
  }

  lemma AtOrBeforeTransitive(a: DateTime, b: DateTime, c: DateTime)
    requires AtOrBefore(a, b) && AtOrBefore(b, c)
    ensures AtOrBefore(a, c)
  {
  }

  /** Midnight on the first day of `now`'s month. */
  function StartOfMonth(now: DateTime): (s: DateTime)
    ensures now.Valid() ==> s.Valid() && AtOrBefore(s, now)
    ensures s.year == now.year && s.month == now.month
  {
    DateTime(now.year, now.month, 1, 0, 0, 0, 0)
  }

  /**
   * A valid timestamp is at or after the start of `now`'s month exactly when
   * its (year, month) is not earlier than `now`'s.
   */
  lemma SinceStartOfMonth(now: DateTime, d: DateTime)
    requires d.Valid()
    ensures AtOrBefore(StartOfMonth(now), d) <==>
            now.year < d.year || (now.year == d.year && now.month <= d.month)
  {
  }

  /** A row of the categories table. */
  datatype Category = Category(id: nat, name: string, budgetLimit: Option<int>)

  /** A row of the transactions table; `categoryId` is a nullable foreign key. */
  datatype Transaction = Transaction(id: nat, amount: int, description: Option<string>,
                                     date: DateTime, transactionType: TransactionType,
                                     categoryId: Option<nat>)

  /** A row of the budget_goals table; no operation reads or writes it. */
  datatype BudgetGoal = BudgetGoal(id: nat, categoryId: nat, targetAmount: int, timeframe: string)

  const DefaultTimeframe: string := "monthly"

  /**
   * A new Transaction row: amount and type are required, the description may be
   * absent, and the date is the creation time `now` unless one is given.
   */
  function NewTransaction(id: nat, amount: int, description: Option<string>, date: Option<DateTime>,
                          transactionType: TransactionType, categoryId: Option<nat>,
                          now: DateTime): (t: Transaction)
    ensures date.None? ==> t.date == now
    ensures date.Some? ==> t.date == date.value
    ensures t.amount == amount && t.description == description
    ensures t.transactionType == transactionType && t.categoryId == categoryId
    ensures t.id == id
  {
    Transaction(id, amount, description, if date.Some? then date.value else now,
                transactionType, categoryId)
  }

  /** A new BudgetGoal row: the timeframe is "monthly" unless one is given. */
  function NewBudgetGoal(id: nat, categoryId: nat, targetAmount: int,
                         timeframe: Option<string>): (g: BudgetGoal)
    ensures timeframe.None? ==> g.timeframe == DefaultTimeframe
    ensures timeframe.Some? ==> g.timeframe == timeframe.value
    ensures g.categoryId == categoryId && g.targetAmount == targetAmount
    ensures g.id == id
  {
    BudgetGoal(id, categoryId, targetAmount,
               if timeframe.Some? then timeframe.value else DefaultTimeframe)
  }

  /** No two categories share a name. */
  ghost predicate UniqueNames(cats: seq<Category>)
  {
    forall i, j :: 0 <= i < j < |cats| ==> cats[i].name != cats[j].name
  }

  /**
   * Primary keys as an integer key column hands them out to a table that is
   * never deleted from: 1, 2, 3, ... in insertion order.
   */
  ghost predicate NumberedCategories(cats: seq<Category>)
  {
    forall i :: 0 <= i < |cats| ==> cats[i].id == i + 1
  }

  ghost predicate NumberedTransactions(ts: seq<Transaction>)
  {
    forall i :: 0 <= i < |ts| ==> ts[i].id == i + 1
  }

  /** Every transaction's category_id is set and names an existing category. */
  ghost predicate CategoriesReferenced(cats: seq<Category>, ts: seq<Transaction>)
  {
    forall t :: t in ts ==> t.categoryId.Some? && 1 <= t.categoryId.value <= |cats|
  }

  /** What the schema and the data-access layer keep true of the two tables. */
  ghost predicate StoreInvariant(cats: seq<Category>, ts: seq<Transaction>)
  {
    UniqueNames(cats) && NumberedCategories(cats) &&
    NumberedTransactions(ts) && CategoriesReferenced(cats, ts)
  }
}
