# Personal finance ledger — a Dafny model

This project models the ledger engine of a single-page personal finance
tracker (`financeScript.js`). The engine keeps:

- an ordered list of income and expense transactions, each stamped with a
  running balance;
- two per-category aggregates, `incomeData` and `expenseData`;
- two scalars, `balance` and `currentBalance`.

The model covers:

- adding a transaction from the entry form, after the form's validation;
- deleting a transaction, then re-sorting the list by date and re-stamping
  every running balance;
- clearing everything;
- the read-only views: the transaction-table filter and its newest-first
  display order, the running-balance series of a month, and the month's top
  ten expense categories;
- the CSV export and its file name.

The model is functional: a `Ledger` value goes in and a new `Ledger` comes
out. The invariants the code relies on are stated as predicates and proved
to hold after every add and delete:

- `Consistent`: positive amounts, unique ids, both scalars equal to the net
  total, and each aggregate holding exactly the categories whose live total
  is positive, each with that total;
- `Chronological`: sorted by date, with every stamped balance equal to the
  signed sum of the transactions up to and including it.

Modules, one per file:

| file | module | content |
|---|---|---|
| `wrappers.dfy` | `Wrappers` | `Option`, `Result` |
| `seqs.dfy` | `Seqs` | order-preserving filter, distinctness |
| `sorting.dfy` | `Sorting` | generic stable insertion sort by an integer key |
| `calendar.dfy` | `Calendar` | Gregorian dates, day numbers, months |
| `text.dfy` | `Text` | decimal rendering and parsing, zero padding, join, split |
| `transactions.dfy` | `Transactions` | transactions, weighted totals, the running-balance walk |
| `ledger_store.dfy` | `LedgerStore` | the ledger, add, delete, recompute, clear, invariants |
| `form_validation.dfy` | `FormValidation` | field checks and form submission |
| `queries.dfy` | `Queries` | table filter, display order, month series, top categories |
| `export_codec.dfy` | `ExportCodec` | CSV generation, file name, and the readers that invert them |
| `scenarios.dfy` | `Scenarios` | worked examples on concrete ledgers |

Representation choices:

- Amounts are whole units (`int`).
- A date is a valid Gregorian `Ymd` with a year from 1 to 9999. It is
  compared through its day number, the days since 0001-01-01. This matches
  how `new Date("YYYY-MM-DD")` orders dates at UTC midnight.
- "Now" is a parameter: the day number of the current date.
- Transaction ids are supplied by the caller. The invariant lemmas require
  them to be fresh.

Where the expected behaviour and the code differ, the model follows the
code:

- The table filter returns transactions in ledger order. The newest-first
  order is applied afterwards by the table renderer (`DisplayOrder`).
- Adding a transaction never re-sorts the list. An entry dated before
  existing ones is appended and stamped with the balance as of the newest
  entry. Only a later delete re-sorts and re-stamps the list.
  `AddChronologyIff` and `Scenarios.AddOutOfOrder` state this.

## Model

| member | source | states |
|---|---|---|
| Calendar.DayNumberOrder | financeScript.js:637 | Comparing two dates by day number, as the date comparators do, agrees with calendar order, and equal day numbers mean equal dates. |
| Sorting.SortBySpec | financeScript.js:637 | The sort returns a permutation of its input, ordered by key, in which the elements of each key keep their original relative order (a stable sort). |
| Transactions.WalkBalances | financeScript.js:639-645 | The walk stamps the i-th transaction with the start value plus the signed sum of the first i+1 transactions, and its last stamp is the start value plus the net of all of them. |
| Transactions.WalkStep | financeScript.js:641-642 | Each stamp of the walk is the previous stamp, or the start value for the first transaction, plus the transaction's signed amount. |
| Transactions.WalkKeeps | financeScript.js:639-645 | The walk changes each transaction's stamped balance and nothing else. |
| Transactions.WalkChronological | financeScript.js:639-645 | Walking a date-sorted list from 0 gives a chronological list whose last stamp is the net of all transactions. |
| LedgerStore.Add | financeScript.js:142-163 | Adding appends exactly one transaction and keeps the earlier ones unchanged. The new entry carries the draft's fields and the new `currentBalance`. Both scalars move by the signed amount. The draft's category is credited in the aggregate of its type, and every other key and the other aggregate are unchanged. |
| LedgerStore.AddPreservesConsistency | financeScript.js:142-163 | A positive amount added under a fresh id keeps every invariant: positive amounts, unique ids, scalars equal to the net total, and both aggregates agreeing with the transactions. |
| LedgerStore.AddChronologyIff | financeScript.js:152-162 | On a chronological ledger, the result of an add is chronological exactly when no existing transaction is dated after the new one. |
| LedgerStore.AddLateIsChronological | financeScript.js:152-162 | Adding a transaction dated on or after every existing one keeps a chronological ledger chronological. |
| LedgerStore.AddEarlyBreaksChronology | financeScript.js:152-162 | Adding a transaction dated before an existing one leaves the list out of date order. |
| LedgerStore.IndexOfId | financeScript.js:598-599 | The lookup finds the first transaction with the id, or reports that none has it. |
| LedgerStore.RecalculateOrder | financeScript.js:636-637 | Ignoring stamped balances, the recomputed list is a stable sort by date of the old list. |
| LedgerStore.RecalculateTotals | financeScript.js:639-645 | Recomputing keeps every weighted total, and `currentBalance` becomes the net of all transactions. |
| LedgerStore.RecalculateChronological | financeScript.js:635-646 | After recomputing, the list is chronological and `currentBalance` equals the last stamped balance. |
| LedgerStore.RecalculateSpec | financeScript.js:635-646 | The recompute combines the three facts above and leaves the aggregates and `balance` untouched. |
| LedgerStore.RecalculateKeepsEntries | financeScript.js:635-646 | Recomputing keeps positive amounts and unique ids. |
| LedgerStore.RecalculateRestores | financeScript.js:617-620 | A ledger whose aggregates and `balance` agree with its transactions becomes fully consistent after recomputing. |
| LedgerStore.UnrecordSpec | financeScript.js:601-617 | Removing the i-th transaction removes exactly that transaction. `balance` loses its signed amount. Its category is debited, and deleted when the remainder is not positive. The other aggregate is unchanged. |
| LedgerStore.UnrecordKeepsAggregates | financeScript.js:601-617 | On a consistent ledger, the removal leaves `balance` and both aggregates in agreement with the remaining transactions. |
| LedgerStore.Delete | financeScript.js:598-600 | Deleting an id that no transaction has changes nothing. |
| LedgerStore.DeletePreservesConsistency | financeScript.js:598-622 | Deleting keeps every invariant. When the id was present, the result is also chronological. |
| LedgerStore.DeleteSpec | financeScript.js:598-622 | Deleting the first transaction with the id has these effects: the list is one shorter; the remainder, balances aside, is the old list minus that transaction, stably sorted by date; `balance` loses its signed amount; its category is debited and deleted when not positive; the other aggregate is unchanged; the list is chronological; and `currentBalance` is the last stamp. |
| LedgerStore.DeleteRemovesId | financeScript.js:598-619 | With unique ids, no transaction with the id remains after a delete. |
| LedgerStore.Clear | financeScript.js:804-809 | Clearing gives the empty, consistent ledger: no transactions, empty aggregates, zero scalars. |
| FormValidation.ValidateForm | financeScript.js:80-111 | There are at most three errors. There is none exactly when the amount is positive, the category is non-empty, and a date is picked that is not after today. |
| FormValidation.ValidateFormSpec | financeScript.js:80-111 | Each field has an error exactly when its check fails: an amount that is missing or not positive, an empty category, a missing date, or a date after today. No field has two errors. |
| FormValidation.Submit | financeScript.js:57-63 | A form with errors is rejected with those errors. A valid form gives exactly the ledger that adding the form's type, category, amount, date and description under the id gives, so `Add`'s contract applies. The added transaction has a positive amount, a non-empty category and a date not after today. |
| FormValidation.SubmitPreservesConsistency | financeScript.js:57-63 | A successful submission under a fresh id keeps every ledger invariant. |
| Queries.FilterTransactionsSpec | financeScript.js:547-580 | The filter returns an order-preserving subsequence holding exactly the transactions that pass the tests. A selected date must match exactly, and then the duration is ignored. Otherwise "today" keeps a day difference of 0, and the windows keep differences of at most 7, 30 or 90. A type filter keeps only that type. |
| Queries.DisplayOrderSpec | financeScript.js:511 | The table shows the filtered transactions newest first, with same-date transactions in filter order. |
| Queries.MonthOrderSpec | financeScript.js:662-664 | The month's list is a stable date sort of the transactions in that month. It holds exactly those transactions and has their net. |
| Queries.MonthSeriesExists | financeScript.js:662-670 | There is a balance series exactly when some transaction falls in the month. |
| Queries.SeriesOfSteps | financeScript.js:686-697 | The series starts with the opening point and then has one point per walked transaction, in order, labelled with its date. Each value after the opening one is the previous value plus that transaction's signed amount. The last value is the opening value plus the net of the walk. |
| Queries.MonthSeriesLabels | financeScript.js:686-697 | Every label after the first lies in the month, and all labels ascend by date. |
| Queries.MonthSeriesSpec | financeScript.js:661-699 | The series exists exactly when some transaction falls in the month. It has one more point than there are in-month transactions. The first point is the first of the month, holding the net of all strictly earlier transactions. Each later point is the next in-month transaction in date order, holding the running balance. The last value is the opening value plus the month's net. Labels after the first lie in the month, and all labels ascend by date. |
| Queries.GroupByCategorySpec | financeScript.js:717-720 | Grouping expenses yields one entry per category used, each holding that category's expense total. |
| Queries.TopSpec | financeScript.js:722-724 | Ranking keeps ten entries, or all when there are fewer. They have distinct categories, come in non-increasing order of total, and each is at least as large as any entry left out. |
| Queries.MonthExpensesSpec | financeScript.js:704-706 | The month's expenses are exactly the ledger's expenses dated in that month. |
| Queries.TopOfGroups | financeScript.js:717-724 | Ranking a grouping of expenses keeps categories of those expenses, each with its expense total, in non-increasing order of total. It keeps all of them when there are at most ten. Otherwise it keeps ten, none smaller than a category left out. |
| Queries.TopExpenseCategoriesSpec | financeScript.js:703-727 | The chart holds the month's expense categories, each with its monthly expense total, ordered by non-increasing total. It shows all of them when there are at most ten. Otherwise it shows ten, none smaller than a category left out. |
| Text.IntRoundTrip | financeScript.js:762-763 | Reading back the decimal text of an integer gives the integer. |
| Text.SplitJoin | financeScript.js:766-768 | Splitting a join on a separator character that no part contains gives back the parts. |
| ExportCodec.IsoDateSpec | financeScript.js:750 | A date is written as ten characters, `YYYY-MM-DD`, that read back as the same date. |
| ExportCodec.RowRoundTrip | financeScript.js:766-767 | A line of quoted, comma-joined fields reads back as the same fields, provided no field holds a quote. |
| ExportCodec.CsvTextRoundTrip | financeScript.js:766-768 | Rows of plain fields are written one per line and read back unchanged. |
| ExportCodec.CsvRoundTrip | financeScript.js:755-771 | When no category or description holds a quote or a newline, splitting the file on newlines gives the header line followed by each transaction's row in ledger order, and the file parses back as exactly those rows. |
| ExportCodec.DecodeRowSpec | financeScript.js:757-764 | A transaction's row decodes to its date, type, category, description, amount and balance. |
| ExportCodec.DecodeRowsSpec | financeScript.js:757-764 | The rows of a list of transactions decode to their exported contents, in order. |
| ExportCodec.ImportExportRoundTrip | financeScript.js:755-771 | Importing an export gives back every transaction's exported content in ledger order, under the same plain-text condition. |
| ExportCodec.ExportSpec | financeScript.js:743-752 | An empty ledger is not exported. Otherwise the file is named `transactions_<today>.csv`, with today's date in `YYYY-MM-DD` form, and its content reads back as the ledger's transactions. |
| ExportCodec.QuoteInFieldBreaksRow | financeScript.js:766-767 | Quotes inside a field are not doubled, so a field holding a quote does not read back. |
| Scenarios.AddOutOfOrder | financeScript.js:142-163 | Adding a 200 expense dated before a 1000 income appends it after the income, stamped 800. The ledger is then not chronological. |
| Scenarios.RecomputeReorders | financeScript.js:635-646 | The recompute puts that expense first, stamped -200, and the income second, stamped 800. |
| Scenarios.DeleteUnrecordsExpense | financeScript.js:598-617 | Deleting id 2 finds the expense at position 1. Removing it leaves the income alone, keeps the income aggregate, and empties the expense aggregate. |
| Scenarios.DeleteRestores | financeScript.js:598-622 | Deleting the expense leaves the income stamped 1000, no expense categories, and both scalars at 1000. |

## Left out

- The DOM, toasts, modals, chart drawing and colour palettes are left out. They only display the modelled values. The confirmation modal of a delete or a clear is taken as confirmed.
- Persistence is left out. Saving to and loading from `localStorage`, and backfilling missing ids on load, are I/O.
- The wall clock is left out. `Date.now()` ids are caller-supplied fresh integers. The ISO creation timestamp stored on each transaction is not modelled. "Today" is a day-number parameter.
- Time zones and time of day are left out. `Math.floor` of a millisecond difference is modelled as a whole-day difference between day numbers. Validation compares the date with the end of the local day, so it is modelled as "day number not after today".
- Floating point is left out. Amounts are whole numbers, so fractional amounts and binary rounding of sums are not modelled.
- FormValidation.ValidateForm: takes the amount as an integer, so the `NaN` of an unparsable amount field is not modelled. An empty amount field reads as 0, which the check rejects.
- Trimming in `getFormData` is left out. The form data is taken as already trimmed.
- LedgerStore.Unrecord: a category key absent from its aggregate is read as 0, so the key stays absent. In the source the subtraction would give `NaN` and keep the key. Under `Consistent` the key is always present, so the two agree there.
- Queries.TopExpenseCategories: groups categories in order of first appearance. JavaScript objects list integer-like keys first in ascending order. The difference matters only among categories with equal totals: it can change their order, and when such a tie straddles the tenth place it can change which of them is shown. `RanksTop` does not fix which tied category is chosen.
- LedgerStore.Credit, LedgerStore.Debit and Queries.Accumulate: model every category name as an ordinary map key. The source keeps the aggregates in plain JavaScript objects, where names inherited from `Object.prototype` behave differently. `"toString"` reads an inherited function, so adding gives a string and deleting gives `NaN`, which is never pruned. A write to `"__proto__"` is ignored. Those quirks are not modelled.
- Text.IntToString: renders integers in plain decimal. Exponent notation for very large magnitudes is not modelled.
- Dates are limited to years 1 through 9999. That range is what the four-digit `YYYY-MM-DD` field can hold.
- ExportCodec.CsvRoundTrip: holds only when categories and descriptions contain no double quote and no newline. The export does not escape them, and `QuoteInFieldBreaksRow` shows the failure.
- The download itself (`downloadCSV`, Blob and link handling) is I/O and is left out.
