# AccountPy ledger cleaning, modelled in Dafny

AccountPy turns a bookkeeping ledger into two monthly reports. The ledger is
a table of Date, Type, Account, Effect and Amount. The two reports are an
income statement and a balance sheet. This project models the pipeline that
does this, `clean_df`, together with its helpers `adj_credits_debit` and
`split_df` and the functions nested in `clean_df` (`make_total_row`,
`numeric_cols`, `clean_ic` with `calc_net_income` and
`split_expenses_revenues`, and `clean_bs`). The project then proves what the
reports mean. Each revenue, expense and Net Income cell of the income
statement is proved equal to a sum of the ledger's signed amounts; the
Total Revenues and Total Expenses lines are proved to be column sums of
the pivot rows, and the Year Total column a row sum. Each balance-sheet
balance is proved to be a running sum of the daily balance-sheet rows;
`Daily.AggregateSumWhere` ties sums of daily rows to the ledger, but no
lemma composes the two into a balance-sheet cell stated over the ledger
rows.

The stages and the modules that model them:

- `Ledger` holds the ledger row, the required-columns check and the
  `YYYY-MM` month key. It proves that month order is the text order of the
  keys, and that every key matches the Year Total column filter.
- `Signs` holds the debit/credit sign rule.
- `Daily` holds the per-(day, Type, Account) aggregation and the
  (Account, year_month, Date) sort.
- `Text` holds the case-insensitive `expense|revenue` search and the
  `Expense\s*` / `Revenue\s*` label stripping.
- `Partition` holds `split_df` as a stable partition.
- `Tables` holds column sums, total rows and negation, both dense
  (zero-filled) and sparse (NaN skipped).
- `IncomeStatement` covers `clean_ic`: grouping by (Account, year_month),
  classification, the zero-filled pivot, the split into sections, the
  totals, net income, the section order and the Year Total column.
- `BalanceSheet` covers the (Account, Type, year_month) grouping and the
  running total of line 85. It also covers `clean_bs`: the pivot without
  fill, the forward fill along each row (an in-place loop over a 2-D
  array), the Asset/Liability/Equity sections, cumulative net income at the
  head of Equity, and the totals.
- `Pipeline` covers `clean_df` itself. The caller's DataFrame is a `Frame`
  object that gains the `gaap_amount` column. A missing column yields an
  `Err` result in place of the raised ValueError.
- `Order` holds shared sorting machinery: a generic sort-without-duplicates
  and code-point string order.

Amounts are integer cents, so the `.round(2)` calls leave every value as it
is. A missing cell (NaN) of the balance-sheet pivot is `None`, and a
statement line is a map from month to amount holding only the cells that
are present.

## Model

| member | source | states |
|---|---|---|
| Signs.AdjCreditsDebit | DataScrub.py:8-27 | a CREDIT to an Asset and a DEBIT to any other Type give a non-positive amount of the same magnitude; every other combination, any Effect included, returns Amount unchanged |
| Signs.CreditAndDebitCancel | DataScrub.py:18-27 | for a non-negative Amount, a CREDIT and a DEBIT of the same row cancel |
| Signs.AssetPolarityIsReversed | DataScrub.py:18-27 | for a CREDIT or DEBIT of a non-negative Amount, an Asset gets the opposite sign of any other Type |
| Signs.NegatingSideIgnoresStoredSign | DataScrub.py:19-20 | on the negating side the stored sign of Amount does not matter (absolute value taken) |
| Signs.SignedAmounts | DataScrub.py:75 | the `gaap_amount` column has one entry per row, each the sign rule applied to that row |
| Ledger.CheckColumns | DataScrub.py:62-64 | the check fails exactly when one of Date, Account, Type, Effect, Amount is absent (exact names), and its error names the required list |
| Ledger.MonthKeyOrder | DataScrub.py:79-80 | months compare as their `YYYY-MM` keys compare as text, and equal keys mean equal months |
| Ledger.MonthKeyMatchesPattern | DataScrub.py:179 | every month key matches `\d{4}-\d{2}` and "Year Total" does not |
| Ledger.DecimalOrder | DataScrub.py:79 | fixed-width zero-padded decimal text orders like the numbers it writes |
| Order.SortDistinctSpec | DataScrub.py:80 | the sort yields the distinct elements of its input in strictly ascending order |
| Order.SortedUnique | DataScrub.py:80 | two strictly sorted sequences with the same elements are equal, so a sorted table is fixed by its contents |
| Order.StrLtIsStrictTotalOrder | DataScrub.py:80 | the code-point order on strings used to sort Account and Type is a strict total order |
| Order.Union | DataScrub.py:229-232 | the columns of a concatenation: the first table's columns first, then the second table's columns it lacks; UnionAppends, UnionDistinct and UnionTailSorted state this |
| Order.UnionAppends | DataScrub.py:229-232 | every column after the first table's is a column of the second table missing from the first, each in the second table's order, so none is added twice |
| Order.UnionDistinct | DataScrub.py:229-232 | when the first table has no repeated column, the concatenation has none |
| Order.UnionTailSorted | DataScrub.py:229-232 | when the second table's columns are ascending, the columns appended after the first table's are ascending too |
| Daily.Aggregate | DataScrub.py:78-80 | one row per (day, Type, Account) present in the ledger and no other, each holding the sum of the signed amounts of its group and its own month, sorted by (Account, year_month, Date) |
| Daily.AggregateIgnoresRowOrder | DataScrub.py:78-80 | the daily table depends only on the multiset of ledger rows, not on their order |
| Daily.DroppedRowLeavesNoTrace | DataScrub.py:69-78 | a row without a parsed date, a Type or an Account does not change the daily table |
| Daily.DailySumPermutation | DataScrub.py:78 | a group's sum is the same for any reordering of the ledger |
| Daily.AggregateSumWhere | DataScrub.py:75-80 | over any choice of Accounts and months, the daily amounts add up to the signed amounts of the ledger rows that groupby keeps: each such row is counted exactly once |
| Daily.KeyedTotalIsLedgerSum | DataScrub.py:78 | the sums of distinct groups that cover every kept row add up to the selected ledger rows |
| Daily.RowShareOfDistinct | DataScrub.py:78 | a ledger row adds its signed amount to at most one of a list of distinct groups, the one its key names |
| Daily.KeyOf | DataScrub.py:78 | the group key (day, Type, Account) of a row, None when groupby drops it; Aggregate and DroppedRowLeavesNoTrace state its effect |
| Text.ContainsIgnoreCaseSpec | DataScrub.py:41-42 | the search succeeds exactly when the word occurs somewhere in the name under case-insensitive matching |
| Text.StripWithoutOccurrence | DataScrub.py:154-155 | a name without the case-sensitive word is left exactly as it is |
| Text.StripAtFirstOccurrence | DataScrub.py:154-155 | stripping keeps the text before the first occurrence, drops the word and the whitespace run after it, and goes on with the rest |
| Text.DropSpacesSpec | DataScrub.py:154-155 | the dropped prefix is all whitespace and what remains does not start with whitespace |
| Text.StripShortens | DataScrub.py:154-155 | stripping never lengthens a name |
| Text.Strip | DataScrub.py:154-155 | `str.replace(r'Expense\s*', '')`, as StripWithoutOccurrence and StripAtFirstOccurrence state |
| Text.ContainsIgnoreCase | DataScrub.py:41-42 | the `expense\|revenue` search with IGNORECASE, as ContainsIgnoreCaseSpec states |
| Partition.SplitDf | DataScrub.py:29-45 | the rows are shuffled into matching and non-matching parts, each keeping its order, with every matching row (Account contains expense or revenue, ignoring case) in the first and every other row in the second |
| Partition.InterleavesIsPartition | DataScrub.py:43-44 | the two parts together hold every row exactly as often as the input |
| Partition.InterleavesKeepsOrder | DataScrub.py:43-44 | both parts of a sorted table are sorted |
| Partition.SplitDfUnique | DataScrub.py:41-45 | any order-keeping split by the mask is the one `split_df` returns |
| Pipeline.SplitLedger | DataScrub.py:78-83 | the income-statement part matches the pattern, the balance-sheet part does not, and together they are the daily table |
| Tables.ColumnSumNegated | DataScrub.py:174 | the column sum of negated rows is the negated column sum |
| Tables.TotalOfNegatedRows | DataScrub.py:165-174 | negating the total row equals totalling the negated rows |
| Tables.TotalRow | DataScrub.py:87-100 | `make_total_row` on zero-filled columns: one cell per column, its column sum; TotalOfNegatedRows, IcRevenueTotal and IcExpenseTotal state its use |
| Tables.SparseTotalRow | DataScrub.py:97 | the total row has exactly the given columns |
| Tables.ColumnSumAppend | DataScrub.py:97 | the column sum of two stacked tables is the sum of their column sums |
| Tables.SparseColumnSumAppend | DataScrub.py:97 | likewise with missing cells counted as 0 |
| IncomeStatement.GroupIc | DataScrub.py:84 | one row per (Account, year_month) present, holding that pair's signed amounts, sorted and complete |
| IncomeStatement.CategoryOf | DataScrub.py:117 | Revenue when the Account contains "revenue" ignoring case, otherwise Expense, as IcPivotRowsClassified states of every pivot row |
| IncomeStatement.IcPivot | DataScrub.py:120-126 | the zero-filled pivot, well formed; PivotAccounts, PivotMonths, PivotCellIsMonthlySum and IcPivotRowsClassified state its rows, columns and cells |
| IncomeStatement.CalcNetIncome | DataScrub.py:128-143 | one cell per month, the Revenue total plus the Expense total; PivotNetIncome and IcNetIncomeIsTotalsDifference state its meaning |
| IncomeStatement.SplitExpensesRevenues | DataScrub.py:145-158 | the Expense and Revenue rows in pivot order with the word stripped from each name; IcRevenueLines and IcExpenseLine state this of the report |
| IncomeStatement.YearTotal | DataScrub.py:178-180 | the sum of the cells of the columns that match `\d{4}-\d{2}`; YearTotalIsRowSum states it for month columns |
| IncomeStatement.LineOf | DataScrub.py:173-180 | a statement line with its Year Total, as IcStatementShape states of every line |
| IncomeStatement.AssembleIc | DataScrub.py:172-176 | the five parts in order with one line per item plus three; IcLayout states each part's place |
| IncomeStatement.IcLayout | DataScrub.py:172-176 | the revenue lines, Total Revenues, the negated expense lines, Total Expenses and Net Income sit at consecutive places |
| IncomeStatement.AssembleIcTotalled | DataScrub.py:173-180 | every line of the statement has one cell per month and its Year Total |
| IncomeStatement.IcStatement | DataScrub.py:160-180 | `ic_final` from the pivot; IcStatementShape, IcRevenueLines and IcExpenseLine state its lines |
| IncomeStatement.CleanIc | DataScrub.py:106-183 | the statement and the net income row; IcStatementShape, the line lemmas and NetIncomeIsMonthTotal state them |
| IncomeStatement.PivotAccounts | DataScrub.py:120-126 | the pivot rows are the accounts present, ordered by Category then Account |
| IncomeStatement.PivotMonths | DataScrub.py:120-126 | the pivot columns are the months present, ascending |
| IncomeStatement.PivotCellIsMonthlySum | DataScrub.py:120-126 | a pivot cell is the account's signed amounts of that month, 0 when it has none |
| IncomeStatement.IcPivotRowsClassified | DataScrub.py:117-126 | each row is Revenue exactly when its Account contains "revenue" ignoring case, and the rows are exactly the accounts of the grouped table |
| IncomeStatement.IcSectionSorted | DataScrub.py:120-151 | within each section the accounts ascend |
| IncomeStatement.CategorySplit | DataScrub.py:140-142 | a month's Revenue total plus its Expense total is the total of all pivot rows |
| IncomeStatement.PivotNetIncome | DataScrub.py:128-143 | `calc_net_income` of a month is the sum of the signed amounts of every income-statement row of that month |
| IncomeStatement.NetIncomeIsMonthTotal | DataScrub.py:168-185 | the net income `clean_ic` hands to `clean_bs` is that same monthly total |
| IncomeStatement.IcStatementShape | DataScrub.py:161-176 | the statement has one line per Revenue row and per Expense row plus three, every line has one cell per month and as Year Total the sum of its selected month cells, the totals and Net Income sit at their fixed places, and the Net Income line is `calc_net_income` |
| IncomeStatement.IcRevenueLines | DataScrub.py:151-174 | the first lines are the Revenue rows in pivot order under Revenues, with their cells, and with "Revenue" stripped from the name |
| IncomeStatement.IcExpenseLine | DataScrub.py:150-174 | after Total Revenues come the Expense rows in pivot order under Expenses, negated, with "Expense" stripped |
| IncomeStatement.IcRevenueTotal | DataScrub.py:164 | Total Revenues of a month is the column sum of the Revenue rows |
| IncomeStatement.IcExpenseTotal | DataScrub.py:165-174 | the shown Total Expenses of a month is minus the column sum of the Expense rows |
| IncomeStatement.IcNetIncomeIsTotalsDifference | DataScrub.py:142-174 | Net Income is Total Revenues less the shown Total Expenses |
| IncomeStatement.RevenueLineIsIcSum | DataScrub.py:84-174 | a revenue line's cell is the sum of the amounts of the daily income rows of its account and month |
| IncomeStatement.ExpenseLineIsIcSum | DataScrub.py:84-174 | an expense line's cell is minus the sum of the amounts of the daily income rows of its account and month |
| IncomeStatement.PivotAccountOfIc | DataScrub.py:84-126 | every account of the pivot is the Account of some daily income row |
| IncomeStatement.YearTotalIsRowSum | DataScrub.py:179-180 | with every column a month, Year Total is the sum of the line's cells |
| BalanceSheet.GroupBs | DataScrub.py:85 | one group per (Account, Type, year_month) present, holding that key's signed amounts, sorted and complete |
| BalanceSheet.Regroup | DataScrub.py:85 | any selection of groups adds up to the same selection of daily rows |
| BalanceSheet.CumSumByAccount | DataScrub.py:85 | the running total per Account in key order; CumSumStep, CumSumIsUpTo and BsRunningBalance state it |
| BalanceSheet.CumSumStep | DataScrub.py:85 | each balance is its group's amount plus the previous balance when the previous group has the same Account, and restarts otherwise |
| BalanceSheet.BsRunningBalance | DataScrub.py:85 | a balance is the sum of the rows of its Account whose (Type, month) key does not come after its own |
| BalanceSheet.CumSumIsUpTo | DataScrub.py:85 | in key order, the running total of a group is the total of the groups of its Account that do not come after it |
| BalanceSheet.SingleTypeRunningBalance | DataScrub.py:85 | for an account booked under one Type, the balance is its running total over months up to and including this one |
| BalanceSheet.BsMonths | DataScrub.py:198-203 | the pivot columns are the months present, ascending |
| BalanceSheet.BsCell | DataScrub.py:198-203 | a pivot cell is present exactly when a group has that key, and then holds that group's balance |
| BalanceSheet.BsPivotOf | DataScrub.py:198-203 | every row has one cell per month, and the rows follow the sorted (Type, Account) keys |
| BalanceSheet.BsPivotCell | DataScrub.py:198-203 | a cell of row (Type, Account) in a month is missing exactly when no group has that key, and otherwise holds that group's balance |
| BalanceSheet.BsPivotRowsCover | DataScrub.py:198-203 | every group has a row and the rows ascend by (Type, Account) |
| BalanceSheet.FFillSpec | DataScrub.py:207 | forward fill keeps present cells, leaves a cell empty exactly when no earlier cell of the row is present, and otherwise copies the nearest earlier present cell |
| BalanceSheet.FFill | DataScrub.py:207 | forward fill of one row, as FFillSpec and FFillIsLatest state |
| BalanceSheet.FilledPivot | DataScrub.py:207 | the pivot with every row forward filled, as FilledCellIsLastBalance states cell by cell |
| BalanceSheet.FFillIsLatest | DataScrub.py:207 | the filled cell is the last present value up to that column |
| BalanceSheet.FillForwardInPlace | DataScrub.py:205-207 | the in-place loop leaves each row of the array as the forward fill of its old contents |
| BalanceSheet.FillRowInPlace | DataScrub.py:207 | the scan of one row leaves it as the forward fill of its old contents and leaves every other row as it was |
| BalanceSheet.FilledCellIsLastBalance | DataScrub.py:198-207 | a filled cell is empty exactly before the account's first month, and otherwise holds the balance of its group in the latest month up to this one in which the row has a cell |
| BalanceSheet.RunningFromAt | DataScrub.py:221 | a running sum's j-th entry is the start value plus the first j+1 inputs |
| BalanceSheet.CumulativeNetIncomeAt | DataScrub.py:221 | the Net Income line of Equity holds, for each income-statement month, the net income summed up to that month |
| BalanceSheet.CellMapAt | DataScrub.py:210-220 | a statement line has a cell for a month exactly when the pivot cell is present, and then the same amount |
| BalanceSheet.BsLayout | DataScrub.py:224-231 | the lines are Assets, Total Assets, Liabilities, Total Liabilities, Equities, Total Equity, in that order |
| BalanceSheet.BsAssetLines | DataScrub.py:210-212 | the first lines are the pivot rows of Type exactly "Asset", in pivot order, under Assets |
| BalanceSheet.BsLiabilityLine | DataScrub.py:214-216 | after Total Assets come the rows of Type exactly "Liability", in pivot order, under Liabilities, each with its Account and its present cells |
| BalanceSheet.BsNetIncomeLine | DataScrub.py:221 | Equities opens with the cumulative Net Income line |
| BalanceSheet.BsEquityLine | DataScrub.py:218-221 | after the net income line come the rows of Type exactly "Equity", in pivot order, under Equities |
| BalanceSheet.TotalLine | DataScrub.py:87-100 | `make_total_row` over the pivot months with missing cells skipped, as BsTotalAssets, BsTotalLiabilities and BsTotalEquity state |
| BalanceSheet.EquityLines | DataScrub.py:218-221 | cumulative Net Income followed by the Equity rows, as BsNetIncomeLine and BsEquityLine state |
| BalanceSheet.AssembleBs | DataScrub.py:228-231 | the six parts in order, one line per item plus three; BsLayout states each part's place |
| BalanceSheet.BsStatement | DataScrub.py:209-232 | `bs_final` from the filled pivot; BsLayout, the Bs line lemmas and BsColumns state its lines and columns |
| BalanceSheet.BsReport | DataScrub.py:188-235 | `clean_bs` as a function of the running totals; CleanBs is proved to return it |
| BalanceSheet.BsTotalAssets | DataScrub.py:224 | Total Assets follows the Asset lines and totals them per pivot month |
| BalanceSheet.BsTotalLiabilities | DataScrub.py:225 | Total Liabilities follows the Liability lines and totals them per pivot month |
| BalanceSheet.BsTotalEquity | DataScrub.py:226 | Total Equity is the last line and totals the Equity section, Net Income included |
| BalanceSheet.EquityColumnSum | DataScrub.py:221-226 | the Equity section's column sum is cumulative net income plus the Equity rows |
| BalanceSheet.TotalEquityIncludesNetIncome | DataScrub.py:221-226 | Total Equity of a pivot month is cumulative net income of that month (0 if none) plus the Equity rows |
| BalanceSheet.BsColumns | DataScrub.py:221-232 | the columns are the pivot's months, then the income-statement months the pivot lacks, each once and in income-statement order; with no repeated pivot month the columns repeat none, and with ascending income-statement months the appended ones ascend |
| BalanceSheet.BsReportColumns | DataScrub.py:209-232 | the balance sheet's columns are its months in ascending order, then the income-statement months it lacks in ascending order, with no month twice |
| BalanceSheet.CleanBs | DataScrub.py:188-235 | the method, with its in-place fill, returns the balance sheet the specification functions define |
| Pipeline.WithColumn | DataScrub.py:75 | `gaap_amount` is added once: appended when new, the column list left as it is when it exists |
| Pipeline.AddGaapAmount | DataScrub.py:75 | the frame gains `gaap_amount` as the signed amounts of its rows; the rows are unchanged |
| Pipeline.CleanDf | DataScrub.py:48-242 | with a column missing it returns the error and changes nothing; otherwise it adds `gaap_amount` as the signed amounts, keeps the rows, and returns both reports |
| Pipeline.BuildReports | DataScrub.py:78-241 | the split, `clean_ic` and `clean_bs`, with its in-place fill, return the reports the specification functions define |
| Pipeline.ReportsIgnoreRowOrder | DataScrub.py:48-242 | both reports depend only on the multiset of ledger rows |
| Pipeline.UnkeyedRowIsIgnored | DataScrub.py:69-78 | a row without a parsed date, a Type or an Account changes neither report |
| Pipeline.NetIncomeOfLedger | DataScrub.py:48-143 | each month's Net Income line is the sum of the amounts of that month's daily income rows, and so the sum of the signed amounts of the ledger rows of every income account in that month |
| Pipeline.RevenueCellOfLedger | DataScrub.py:48-174 | a revenue line's cell of a month is the sum of the signed amounts of the ledger rows of its Account dated in that month |
| Pipeline.ExpenseCellOfLedger | DataScrub.py:48-174 | an expense line's cell of a month is minus the sum of the signed amounts of the ledger rows of its Account dated in that month |
| Pipeline.IcSumOfLedger | DataScrub.py:75-84 | for an income account, the daily income rows of a month add up to the signed amounts of that account's ledger rows of the month |
| Pipeline.IncomeSumOfLedger | DataScrub.py:75-83 | over any choice of income accounts and months, the income-statement part of the daily table adds up to the signed amounts of the ledger rows |
| Pipeline.SplitKeepsIncomeSums | DataScrub.py:41-45 | the split loses no row of an income account, so sums over income accounts are the same before and after it |
| Pipeline.PivotAccountIsIncome | DataScrub.py:83-126 | every account of the income-statement pivot is an income account |
| Pipeline.BalanceSheetColumns | DataScrub.py:83-232 | the balance sheet of the pipeline has its own months ascending, then the income statement's months it lacks ascending, and no month twice |
| Pipeline.Reported | DataScrub.py:78-237 | the two reports as functions of the ledger rows; BuildReports and CleanDf are proved to return them, and ReportsIgnoreRowOrder, UnkeyedRowIsIgnored, NetIncomeOfLedger, BalanceSheetColumns and the Cell lemmas state what they hold |

## Left out

- Total Revenues, Total Expenses and Year Total cells stated over the ledger rows: they are proved to be column sums of the pivot rows (IcRevenueTotal, IcExpenseTotal) and row sums of the month cells (YearTotalIsRowSum), whose revenue and expense cells are in turn ledger sums, but no lemma composes these into one ledger sum per total cell.
- A balance-sheet cell stated over the ledger rows: the balances are proved to be running sums of the daily balance-sheet rows (BsRunningBalance), and `Daily.AggregateSumWhere` relates daily sums to the ledger, but the two are not composed into one lemma.
- Date parsing by `pd.to_datetime(..., errors='coerce')` (DataScrub.py:69) is a library call. Dates arrive parsed, with an unparsable date as `None` (NaT), and such rows drop out of the grouping as in pandas.
- Floating-point amounts and `.round(2)` (lines 84, 181, 233): amounts are integer cents, so rounding is the identity.
- Pipeline.CleanDf: the ValueError of line 64 is returned as an `Err` value, not raised. The `except` branch of lines 71-72 is outside the model, because date parsing is left out (first line above).
- `numeric_cols` (lines 102-103, 139, 205) is the list of month columns of the table at hand. Category, Account and Type are the only non-numeric columns, so the model carries the month list directly.
- The MultiIndex labels of `pd.concat(..., keys=...)` and `set_index` are modelled as a section name and a row name on each line. The `Category` column of line 117 and the `inplace=True` calls are modelled as values, not as in-place updates of separate frames.
- A pandas NaN in Effect behaves like any string other than CREDIT/DEBIT and is not a separate case. NaN in Amount is not modelled.
- An empty income-statement or balance-sheet part: pandas' handling of an empty pivot (no month columns at all) is not modelled. The model gives empty sections and empty totals.
- The running total of line 85 is grouped by Account alone (`groupby(level=0)`). An account booked under two Types therefore carries its balance from the first Type into the second. The model keeps this behaviour as written, and BalanceSheet.SingleTypeRunningBalance states the per-month running total for the usual one-Type account.
- Section totals cover the balance-sheet months only, as in the source. The cumulative Net Income line may have income-statement months that no balance-sheet row has; those columns appear in the report (BsColumns) but have no total cell, as in pandas, where `make_total_row` sums only `numeric_cols` of the pivot.
- The equation assets = liabilities + equity is neither checked nor guaranteed by the program, so it is not stated.
- Whitespace and case-insensitive matching follow Python's `\s` and IGNORECASE matching for single code points. Unicode case folding beyond the letters of "expense" and "revenue" is not needed and not modelled.
- DisplayUI.py (Tkinter and PDF rendering), OutputHTML.py (HTML export, named from today's date) and csvLoaderGUI.py (file dialog and CSV loading) are UI and I/O and are not part of this model.
