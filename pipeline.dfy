/** `clean_df` (DataScrub.py:48-241): the ledger DataFrame in, the income
  statement and the balance sheet out.

  The caller's DataFrame is changed in place: it gains (or has overwritten)
  the `gaap_amount` column. The Date column arrives already parsed (see
  Ledger), so its conversion at line 69 leaves the rows as they are. When a
  required column is missing, nothing is changed and the ValueError is
  returned instead of raised.
*/
module Pipeline {
  import opened Order
  import opened Ledger
  import opened Signs
  import opened Text
  import opened Daily
  import opened Partition
  import opened IncomeStatement
  import opened BalanceSheet

  datatype Result<T, E> = Ok(value: T) | Err(error: E)

  /** The two DataFrames `clean_df` returns. */
  datatype Reports = Reports(incomeStatement: IncomeReport, balanceSheet: BalanceReport)

  /** The ledger DataFrame: its column names, its rows and the
      `gaap_amount` column once it has been added. */
  class Frame {
    var columns: seq<string>
    var rows: seq<LedgerRow>
    var gaapAmount: seq<int>

    constructor (columns: seq<string>, rows: seq<LedgerRow>)
      ensures this.columns == columns && this.rows == rows && gaapAmount == []
    {
      this.columns := columns;
      this.rows := rows;
      gaapAmount := [];
    }
  }

  /** The column list after `df['gaap_amount'] = ...`: appended when new,
      left in place when it exists. */
  function WithColumn(columns: seq<string>, name: string): (result: seq<string>)
    ensures name in result
    ensures forall c :: c in columns ==> c in result
    ensures forall c :: c in result ==> c in columns || c == name
    ensures name in columns ==> result == columns
    ensures name !in columns ==> |result| == |columns| + 1 && result[..|columns|] == columns
  {
    if name in columns then columns else columns + [name]
  }

  /** The daily rows of the income statement and of the balance sheet
      (lines 78-83). */
  function SplitLedger(rows: seq<LedgerRow>): (parts: (seq<DailyRow>, seq<DailyRow>))
    ensures forall d :: d in parts.0 ==> Matching(d)
    ensures forall d :: d in parts.1 ==> !Matching(d)
    ensures multiset(Aggregate(rows)) == multiset(parts.0) + multiset(parts.1)
  {
    InterleavesIsPartition(Aggregate(rows), SplitDf(Aggregate(rows)).0, SplitDf(Aggregate(rows)).1);
    SplitDf(Aggregate(rows))
  }

  /** What `clean_df` returns for a ledger with the required columns. */
  function Reported(rows: seq<LedgerRow>): Reports {
    var parts := SplitLedger(rows);
    var ic := CleanIc(GroupIc(parts.0));
    Reports(ic.0, BsReport(CumSumByAccount(GroupBs(parts.1)), ic.0.months, ic.1))
  }

  /** The pipeline: validation, the signed amounts, the daily table, the
      split, the income statement and the balance sheet. */
  method CleanDf(df: Frame) returns (result: Result<Reports, LedgerError>)
    modifies df
    ensures !HasRequiredColumns(old(df.columns)) ==>
      result == Err(MissingColumns(RequiredColumns)) && unchanged(df)
    ensures HasRequiredColumns(old(df.columns)) ==>
      && result == Ok(Reported(old(df.rows)))
      && df.rows == old(df.rows)
      && df.gaapAmount == SignedAmounts(old(df.rows))
      && df.columns == WithColumn(old(df.columns), "gaap_amount")
  {
    var error := CheckColumns(df.columns);
    if error.Some? {
      return Err(error.value);
    }
    AddGaapAmount(df);
    var reports := BuildReports(df.rows);
    return Ok(reports);
  }

  /** Line 75: `df['gaap_amount']` set to the signed amounts. */
  method AddGaapAmount(df: Frame)
    modifies df
    ensures df.rows == old(df.rows)
    ensures df.gaapAmount == SignedAmounts(df.rows)
    ensures df.columns == WithColumn(old(df.columns), "gaap_amount")
  {
    df.gaapAmount := SignedAmounts(df.rows);
    df.columns := WithColumn(df.columns, "gaap_amount");
  }

  /** Lines 72-241 on the ledger rows: the split, `clean_ic` and `clean_bs`. */
  method BuildReports(rows: seq<LedgerRow>) returns (reports: Reports)
    ensures reports == Reported(rows)
  {
    var parts := SplitLedger(rows);
    var ic := CleanIc(GroupIc(parts.0));
    var bs := CleanBs(CumSumByAccount(GroupBs(parts.1)), ic.0.months, ic.1);
    reports := Reports(ic.0, bs);
  }

  // ---- What the reports say about the ledger ----

  /** The reports do not depend on the order of the ledger rows. */
  lemma ReportsIgnoreRowOrder(a: seq<LedgerRow>, b: seq<LedgerRow>)
    requires multiset(a) == multiset(b)
    ensures Reported(a) == Reported(b)
  {
    AggregateIgnoresRowOrder(a, b);
  }

  /** A row with no date, Type or Account changes neither report. */
  lemma UnkeyedRowIsIgnored(a: seq<LedgerRow>, r: LedgerRow, b: seq<LedgerRow>)
    requires KeyOf(r) == None
    ensures Reported(a + [r] + b) == Reported(a + b)
  {
    DroppedRowLeavesNoTrace(a, r, b);
  }

  // ---- From the ledger rows to the income statement ----

  /** Account `a` in month `m`. */
  function AccountMonthIs(a: string, m: Month): Selection {
    (x: string, y: Month) => x == a && y == m
  }

  /** Every income account (an Account matching `expense|revenue`) in month `m`. */
  function IncomeMonthIs(m: Month): Selection {
    (x: string, y: Month) => IsIncomeAccount(x) && y == m
  }

  lemma {:induction false} IcSumIsSumWhere(ic: seq<DailyRow>, a: string, m: Month)
    ensures IcSum(ic, a, m) == DailySumWhere(ic, AccountMonthIs(a, m))
  {
    if ic != [] {
      IcSumIsSumWhere(ic[1..], a, m);
    }
  }

  lemma {:induction false} MonthTotalIsSumWhere(ic: seq<DailyRow>, m: Month)
    requires forall d :: d in ic ==> Matching(d)
    ensures MonthTotal(ic, m) == DailySumWhere(ic, IncomeMonthIs(m))
  {
    if ic != [] {
      assert ic[0] in ic;
      MonthTotalIsSumWhere(ic[1..], m);
    }
  }

  /** The income-statement part keeps every row of an income account. */
  lemma {:induction false} SplitKeepsIncomeSums(daily: seq<DailyRow>, sel: Selection)
    requires forall x, y :: sel(x, y) ==> IsIncomeAccount(x)
    ensures DailySumWhere(SplitDf(daily).0, sel) == DailySumWhere(daily, sel)
  {
    if daily != [] {
      SplitKeepsIncomeSums(daily[1..], sel);
    }
  }

  /** Over income accounts, the income-statement part of the daily table adds
      up to the signed amounts of the ledger rows. */
  lemma IncomeSumOfLedger(rows: seq<LedgerRow>, sel: Selection)
    requires forall x, y :: sel(x, y) ==> IsIncomeAccount(x)
    ensures DailySumWhere(SplitLedger(rows).0, sel) == LedgerSumWhere(rows, sel)
  {
    SplitKeepsIncomeSums(Aggregate(rows), sel);
    AggregateSumWhere(rows, sel);
  }

  /** The daily income rows of an income account and month add up to the
      signed amounts of the ledger rows of that Account and month. */
  lemma IcSumOfLedger(rows: seq<LedgerRow>, a: string, m: Month)
    requires IsIncomeAccount(a)
    ensures IcSum(SplitLedger(rows).0, a, m) == LedgerSumWhere(rows, AccountMonthIs(a, m))
  {
    IcSumIsSumWhere(SplitLedger(rows).0, a, m);
    IncomeSumOfLedger(rows, AccountMonthIs(a, m));
  }

  /** Every account of the income-statement pivot is an income account. */
  lemma PivotAccountIsIncome(ic: seq<DailyRow>, r: PivotRow)
    requires forall d :: d in ic ==> Matching(d)
    requires r in IcPivot(GroupIc(ic)).rows
    ensures IsIncomeAccount(r.account)
  {
    PivotAccountOfIc(ic, r);
    var d :| d in ic && d.account == r.account;
    assert Matching(d);
  }

  lemma ReportedIncome(rows: seq<LedgerRow>, ic: seq<DailyRow>, report: IncomeReport)
    requires ic == SplitLedger(rows).0 && report == Reported(rows).incomeStatement
    ensures report == IcStatement(IcPivot(GroupIc(ic)))
  {
    CleanIcParts(GroupIc(ic));
  }

  /** A revenue line's cell is the sum of the signed amounts of the ledger
      rows of its Account and month (`ic`, `p` and `report` name the
      income-statement part of the daily table, its pivot and the income
      statement). */
  lemma RevenueCellOfLedger(rows: seq<LedgerRow>, ic: seq<DailyRow>, p: Pivot, report: IncomeReport, i: nat, j: nat)
    requires ic == SplitLedger(rows).0 && p == IcPivot(GroupIc(ic)) && report == Reported(rows).incomeStatement
    requires i < |RowsIn(p.rows, Revenue)| && j < |p.months|
    ensures report.months == p.months
    ensures i < |report.lines| && j < |report.lines[i].cells|
    ensures report.lines[i].cells[j] == LedgerSumWhere(rows, AccountMonthIs(RowsIn(p.rows, Revenue)[i].account, p.months[j]))
  {
    ReportedIncome(rows, ic, report);
    RevenueLineIsIcSum(ic, p, report, i, j);
    PivotAccountIsIncome(ic, RowsIn(p.rows, Revenue)[i]);
    IcSumOfLedger(rows, RowsIn(p.rows, Revenue)[i].account, p.months[j]);
  }

  /** An expense line's cell is minus the sum of the signed amounts of the
      ledger rows of its Account and month; the expense lines follow the
      revenue lines and Total Revenues. */
  lemma ExpenseCellOfLedger(rows: seq<LedgerRow>, ic: seq<DailyRow>, p: Pivot, report: IncomeReport, i: nat, j: nat)
    requires ic == SplitLedger(rows).0 && p == IcPivot(GroupIc(ic)) && report == Reported(rows).incomeStatement
    requires i < |RowsIn(p.rows, Expense)| && j < |p.months|
    ensures report.months == p.months
    ensures |RowsIn(p.rows, Revenue)| + 1 + i < |report.lines|
    ensures j < |report.lines[|RowsIn(p.rows, Revenue)| + 1 + i].cells|
    ensures report.lines[|RowsIn(p.rows, Revenue)| + 1 + i].cells[j] ==
      -LedgerSumWhere(rows, AccountMonthIs(RowsIn(p.rows, Expense)[i].account, p.months[j]))
  {
    var row := RowsIn(p.rows, Expense)[i];
    ReportedIncome(rows, ic, report);
    ExpenseLineIsIcSum(ic, p, report, i, j);
    PivotAccountIsIncome(ic, row);
    IcSumOfLedger(rows, row.account, p.months[j]);
  }

  /** The columns of the balance sheet: its own months ascending, then the
      income-statement months it lacks, ascending, and no month twice
      (`cum` names the running balances of line 85). */
  lemma BalanceSheetColumns(rows: seq<LedgerRow>, cum: seq<BsGroup>, report: Reports)
    requires cum == CumSumByAccount(GroupBs(SplitLedger(rows).1)) && report == Reported(rows)
    ensures
      var columns, months := report.balanceSheet.columns, BsMonths(cum);
      && columns[..|months|] == months && StrictlySorted(months, MonthLt)
      && StrictlySorted(columns[|months|..], MonthLt)
      && (forall i :: |months| <= i < |columns| ==> columns[i] in report.incomeStatement.months && columns[i] !in months)
      && Distinct(columns)
  {
    var grouped := GroupIc(SplitLedger(rows).0);
    CleanIcParts(grouped);
    BsReportColumns(cum, CleanIc(grouped).0.months, CleanIc(grouped).1);
  }

  /** Net income of a month is the sum of the signed amounts of the
      income-statement rows of that month, which are the signed amounts of
      the ledger rows of every income account in that month. */
  lemma NetIncomeOfLedger(rows: seq<LedgerRow>, j: nat)
    requires j < |Reported(rows).incomeStatement.months|
    ensures
      var ic := SplitLedger(rows).0;
      var report := Reported(rows).incomeStatement;
      var lines := report.lines;
      && |lines| > 0 && j < |lines[|lines| - 1].cells|
      && lines[|lines| - 1].cells[j] == MonthTotal(ic, report.months[j])
      && lines[|lines| - 1].cells[j] == LedgerSumWhere(rows, IncomeMonthIs(report.months[j]))
  {
    var ic := SplitLedger(rows).0;
    var p := IcPivot(GroupIc(ic));
    CleanIcParts(GroupIc(ic));
    IcStatementShape(p);
    PivotNetIncome(ic, j);
    MonthTotalIsSumWhere(ic, p.months[j]);
    IncomeSumOfLedger(rows, IncomeMonthIs(p.months[j]));
  }
}
