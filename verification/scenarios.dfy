/** Worked examples on concrete ledgers: an entry added out of date order is
    stamped with the balance as of the newest entry until a recompute
    re-orders and re-stamps the ledger, and deleting it restores the
    aggregates and balances. */
module Scenarios {
  import opened Wrappers
  import opened Calendar
  import opened Sorting
  import opened Transactions
  import opened LedgerStore

  const Jan1: Date := Ymd(2024, 1, 1)
  const Jan5: Date := Ymd(2024, 1, 5)

  function SalaryFirst(): Ledger {
    Add(Empty(), Draft(Income, "Salary", 1000, Jan5, ""), 1)
  }

  function FoodAfter(): Ledger {
    Add(SalaryFirst(), Draft(Expense, "Food", 200, Jan1, ""), 2)
  }

  /** Adding an expense dated before the existing income appends it after
      that income and stamps it with 800, the balance after both, although
      by date it comes first; the ledger is then not chronological. */
  lemma AddOutOfOrder()
    ensures var l := FoodAfter();
            && |l.transactions| == 2
            && l.transactions[0].id == 1 && l.transactions[0].balance == 1000
            && l.transactions[1].id == 2 && l.transactions[1].balance == 800
            && l.currentBalance == 800 && l.balance == 800
            && l.incomeData == map["Salary" := 1000]
            && l.expenseData == map["Food" := 200]
            && !Chronological(l.transactions)
  {
    var l := FoodAfter();
    assert DayKey(l.transactions[0]) > DayKey(l.transactions[1]) by {
      DayNumberOrder(Jan1, Jan5);
    }
  }

  /** The recompute puts the expense first, stamped -200, and the income
      second, stamped 800. */
  lemma RecomputeReorders()
    ensures var r := Recalculate(FoodAfter());
            && |r.transactions| == 2
            && r.transactions[0].id == 2 && r.transactions[0].balance == -200
            && r.transactions[1].id == 1 && r.transactions[1].balance == 800
            && r.currentBalance == 800
  {
    var l := FoodAfter();
    var ts := l.transactions;
    DayNumberOrder(Jan1, Jan5);
    assert DayKey(ts[1]) < DayKey(ts[0]);
    assert ts[..1] == [ts[0]];
    assert SortBy(ts[..1], DayKey) == [ts[0]];
    assert SortBy(ts, DayKey) == [ts[1], ts[0]];
    assert [ts[1], ts[0]][1..] == [ts[0]];
    assert Walk([ts[0]], -200) == [ts[0].(balance := 800)];
    assert [ts[1], ts[0]][..1] == [ts[1]];
    SingleTotal(ts[1], Net);
  }

  /** Deleting the expense leaves the income stamped 1000, no expense
      categories, and both scalars at 1000. */
  lemma DeleteRestores()
    ensures var r := Delete(FoodAfter(), 2);
            && |r.transactions| == 1
            && r.transactions[0].id == 1 && r.transactions[0].balance == 1000
            && r.incomeData == map["Salary" := 1000]
            && r.expenseData == map[]
            && r.balance == 1000 && r.currentBalance == 1000
  {
    var u := Unrecord(FoodAfter(), 1);
    DeleteUnrecordsExpense();
    assert SortBy(u.transactions, DayKey) == u.transactions;
  }

  /** Deleting id 2 takes out the expense at position 1, leaving the income
      and an empty expense aggregate. */
  lemma DeleteUnrecordsExpense()
    ensures IndexOfId(FoodAfter().transactions, 2) == Some(1)
    ensures Unrecord(FoodAfter(), 1).transactions == [SalaryFirst().transactions[0]]
    ensures Unrecord(FoodAfter(), 1).incomeData == map["Salary" := 1000]
    ensures Unrecord(FoodAfter(), 1).expenseData == map[]
  {
    var l := FoodAfter();
    assert IndexOfId(l.transactions, 2) == Some(1);
    var u := Unrecord(l, 1);
    assert u.transactions == [l.transactions[0]];
    assert u.expenseData == map[];
  }
}
