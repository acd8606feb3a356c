/**
 * Clients of the store: two worked examples, one for the monthly summary
 * and one for listing, proved from the contracts of the operations and the
 * lemmas about the queries.
 */
module Scenarios {
  import opened Wrappers
  import opened Models
  import opened Helpers

  /**
   * A 50.00 Food expense and a 2000.00 Salary income recorded this month
   * give the summary (2000.00, 50.00, 1950.00).
   */
  method SummaryScenario(now: DateTime) returns (s: Summary)
    requires now.Valid()
    ensures s == Summary(200000, 5000, 195000)
  {
    var store := new Store();
    var groceries := store.AddTransaction(5000, Some("Groceries"), "Food", "expense", now);
    var paycheck := store.AddTransaction(200000, Some("Paycheck"), "Salary", "income", now);
    var cats := store.categories;
    MonthlySummaryNothingThisMonth(cats, [], now);
    MonthlySummaryAppend(cats, [], groceries.value, now);
    assert [] + [groceries.value] == [groceries.value];
    MonthlySummaryAppend(cats, [groceries.value], paycheck.value, now);
    s := MonthlySummary(cats, store.transactions, now);
  }

  /**
   * With two Food expenses recorded at different times, listing one Food
   * transaction gives the later of the two.
   */
  method LatestFoodScenario(earlier: DateTime, later: DateTime) returns (listed: seq<Transaction>)
    requires AtOrBefore(earlier, later) && !AtOrBefore(later, earlier)
    ensures |listed| == 1 && listed[0].date == later && listed[0].description == Some("Dinner")
  {
    var store := new Store();
    var lunch := store.AddTransaction(1200, Some("Lunch"), "Food", "expense", earlier);
    assert store.categories == [Category(1, "Food", None)];
    var dinner := store.AddTransaction(3000, Some("Dinner"), "Food", "expense", later);
    var cats, ts := store.categories, store.transactions;
    assert cats == [Category(1, "Food", None)];
    assert ts == [lunch.value, dinner.value];
    LatestOfTwo(cats, lunch.value, dinner.value, "Food");
    var r := ListTransactions(cats, ts, 1, Some("Food"), None);
    listed := r.value;
  }

  /**
   * Of two transactions of one category, a listing of one gives the newer,
   * by the listing lemmas: one of the two must be listed, and the older one
   * cannot be, since the newer one would then be a newer omitted match.
   */
  lemma LatestOfTwo(cats: seq<Category>, a: Transaction, b: Transaction, name: string)
    requires CategoryNameOf(cats, a) == Some(name) && CategoryNameOf(cats, b) == Some(name)
    requires !AtOrBefore(b.date, a.date) && name != ""
    ensures ListTransactions(cats, [a, b], 1, Some(name), None) == Success([b])
  {
    var ts := [a, b];
    var r := ListTransactions(cats, ts, 1, Some(name), None);
    assert r.Success?;
    var listed := r.value;
    ListTransactionsFilteredAndOrdered(cats, ts, 1, Some(name), None);
    ListTransactionsNoNewerOmitted(cats, ts, 1, Some(name), None);
    assert Listable(cats, a, Some(name), None) && Listable(cats, b, Some(name), None);
    assert a in ts && b in ts;
    assert a in listed || |listed| == 1;
    assert |listed| == 1;
    var v := listed[0];
    assert v in multiset(listed);
    assert v in multiset(ts);
    assert b in listed || AtOrBefore(b.date, v.date);
    assert listed == [b];
  }
}
