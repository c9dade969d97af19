/** The income statement: the monthly grouping of the income-statement rows
  (DataScrub.py:84) and `clean_ic` with its helpers `calc_net_income` and
  `split_expenses_revenues` (DataScrub.py:106-183).

  The pivot has one row per account, ordered by (Category, Account), so the
  Expense rows come before the Revenue rows, and one column per month, in
  ascending order. Its cells are zero-filled, so every row is dense. Net
  income adds the Revenue and the Expense cells as signed; only the
  displayed expense section and its total are negated.
*/
module IncomeStatement {
  import opened Order
  import opened Ledger
  import opened Text
  import opened Daily
  import opened Tables

  datatype AccountMonth = AccountMonth(account: string, month: Month)

  /** One row of `ic` after line 84: Account, year_month, gaap_amount. */
  datatype MonthlyRow = MonthlyRow(account: string, month: Month, amount: int)

  function AccountMonthOf(d: DailyRow): AccountMonth {
    AccountMonth(d.account, d.yearMonth)
  }

  function KeyOfMonthly(g: MonthlyRow): AccountMonth {
    AccountMonth(g.account, g.month)
  }

  predicate AccountMonthLt(a: AccountMonth, b: AccountMonth) {
    StrLt(a.account, b.account) || (a.account == b.account && MonthLt(a.month, b.month))
  }

  predicate MonthlyLt(g: MonthlyRow, h: MonthlyRow) {
    AccountMonthLt(KeyOfMonthly(g), KeyOfMonthly(h))
  }

  lemma AccountMonthLtIsStrictTotalOrder()
    ensures IsStrictTotalOrder(AccountMonthLt)
  {
    StrLtIsStrictTotalOrder();
    MonthLtIsStrictTotalOrder();
  }

  /** The signed amounts of account `a` in month `m`. */
  function IcSum(ic: seq<DailyRow>, a: string, m: Month): int {
    if ic == [] then 0
    else (if AccountMonthOf(ic[0]) == AccountMonth(a, m) then ic[0].amount else 0) + IcSum(ic[1..], a, m)
  }

  /** The signed amounts of every row of month `m`. */
  function MonthTotal(ic: seq<DailyRow>, m: Month): int {
    if ic == [] then 0
    else (if ic[0].yearMonth == m then ic[0].amount else 0) + MonthTotal(ic[1..], m)
  }

  function AccountMonths(ic: seq<DailyRow>): (keys: seq<AccountMonth>)
    ensures forall k :: k in keys <==> exists d :: d in ic && AccountMonthOf(d) == k
  {
    var keys := seq(|ic|, i requires 0 <= i < |ic| => AccountMonthOf(ic[i]));
    assert forall d :: d in ic ==> AccountMonthOf(d) in keys by {
      forall d | d in ic ensures AccountMonthOf(d) in keys {
        var i :| 0 <= i < |ic| && ic[i] == d;
        assert keys[i] == AccountMonthOf(d);
      }
    }
    keys
  }

  /** The row of each key of `keys`, holding the sum of its rows. */
  function MonthlyRowsFor(ic: seq<DailyRow>, keys: seq<AccountMonth>): (grouped: seq<MonthlyRow>)
    ensures |grouped| == |keys|
    ensures forall i :: 0 <= i < |keys| ==>
      grouped[i] == MonthlyRow(keys[i].account, keys[i].month, IcSum(ic, keys[i].account, keys[i].month))
  {
    if keys == [] then [] else
      [MonthlyRow(keys[0].account, keys[0].month, IcSum(ic, keys[0].account, keys[0].month))]
      + MonthlyRowsFor(ic, keys[1..])
  }

  lemma MonthlyRowsSorted(ic: seq<DailyRow>, keys: seq<AccountMonth>)
    requires StrictlySorted(keys, AccountMonthLt)
    ensures StrictlySorted(MonthlyRowsFor(ic, keys), MonthlyLt)
    ensures forall g :: g in MonthlyRowsFor(ic, keys) ==> g.amount == IcSum(ic, g.account, g.month)
  {
    var grouped := MonthlyRowsFor(ic, keys);
    forall g | g in grouped ensures g.amount == IcSum(ic, g.account, g.month) {
      var i :| 0 <= i < |grouped| && grouped[i] == g;
    }
  }

  lemma MonthlyRowsCover(ic: seq<DailyRow>, keys: seq<AccountMonth>)
    requires forall k :: k in keys <==> exists d :: d in ic && AccountMonthOf(d) == k
    ensures forall d :: d in ic ==> exists g :: g in MonthlyRowsFor(ic, keys) && KeyOfMonthly(g) == AccountMonthOf(d)
    ensures forall g :: g in MonthlyRowsFor(ic, keys) ==> exists d :: d in ic && AccountMonthOf(d) == KeyOfMonthly(g)
  {
    var grouped := MonthlyRowsFor(ic, keys);
    forall d | d in ic ensures exists g :: g in grouped && KeyOfMonthly(g) == AccountMonthOf(d) {
      assert AccountMonthOf(d) in keys;
      var i :| 0 <= i < |keys| && keys[i] == AccountMonthOf(d);
      assert grouped[i] in grouped;
    }
    forall g | g in grouped ensures exists d :: d in ic && AccountMonthOf(d) == KeyOfMonthly(g) {
      var i :| 0 <= i < |grouped| && grouped[i] == g;
      assert keys[i] in keys;
    }
  }

  /** The (account, month) keys present, in key order. */
  function SortedAccountMonths(ic: seq<DailyRow>): (keys: seq<AccountMonth>)
    ensures StrictlySorted(keys, AccountMonthLt)
    ensures forall k :: k in keys <==> exists d :: d in ic && AccountMonthOf(d) == k
  {
    AccountMonthLtIsStrictTotalOrder();
    SortDistinctSpec(AccountMonths(ic), AccountMonthLt);
    SortDistinct(AccountMonths(ic), AccountMonthLt)
  }

  /** Line 84: `groupby(['Account', 'year_month']).sum()`, one row per
      (account, month) present, in key order. */
  function GroupIc(ic: seq<DailyRow>): (grouped: seq<MonthlyRow>)
    ensures StrictlySorted(grouped, MonthlyLt)
    ensures forall g :: g in grouped ==> g.amount == IcSum(ic, g.account, g.month)
    ensures forall d :: d in ic ==> exists g :: g in grouped && KeyOfMonthly(g) == AccountMonthOf(d)
    ensures forall g :: g in grouped ==> exists d :: d in ic && AccountMonthOf(d) == KeyOfMonthly(g)
  {
    MonthlyRowsSorted(ic, SortedAccountMonths(ic));
    MonthlyRowsCover(ic, SortedAccountMonths(ic));
    MonthlyRowsFor(ic, SortedAccountMonths(ic))
  }

  // ---- The pivot (lines 117-126) ----

  datatype Category = Expense | Revenue

  /** Line 117: Revenue when the account name contains "revenue" in any case. */
  function CategoryOf(account: string): Category {
    if IsRevenueAccount(account) then Revenue else Expense
  }

  /** The pivot's row order: Category ("Expense" < "Revenue"), then Account. */
  predicate PivotLt(a: string, b: string) {
    || (CategoryOf(a) == Expense && CategoryOf(b) == Revenue)
    || (CategoryOf(a) == CategoryOf(b) && StrLt(a, b))
  }

  lemma PivotLtIsStrictTotalOrder()
    ensures IsStrictTotalOrder(PivotLt)
  {
    StrLtIsStrictTotalOrder();
  }

  /** `aggfunc='sum', fill_value=0`: the amounts of the grouped rows of
      (a, m), 0 when there are none. */
  function PivotCell(grouped: seq<MonthlyRow>, a: string, m: Month): int {
    if grouped == [] then 0
    else (if KeyOfMonthly(grouped[0]) == AccountMonth(a, m) then grouped[0].amount else 0) + PivotCell(grouped[1..], a, m)
  }

  datatype PivotRow = PivotRow(category: Category, account: string, cells: seq<int>)

  datatype Pivot = Pivot(months: seq<Month>, rows: seq<PivotRow>)

  function PivotRowFor(grouped: seq<MonthlyRow>, months: seq<Month>, a: string): (row: PivotRow)
    ensures |row.cells| == |months|
  {
    PivotRow(CategoryOf(a), a, seq(|months|, j requires 0 <= j < |months| => PivotCell(grouped, a, months[j])))
  }

  function PivotRowsFor(grouped: seq<MonthlyRow>, months: seq<Month>, accounts: seq<string>): (rows: seq<PivotRow>)
    ensures |rows| == |accounts|
    ensures forall i :: 0 <= i < |accounts| ==> rows[i] == PivotRowFor(grouped, months, accounts[i])
  {
    if accounts == [] then []
    else [PivotRowFor(grouped, months, accounts[0])] + PivotRowsFor(grouped, months, accounts[1..])
  }

  function MonthsOf(grouped: seq<MonthlyRow>): (months: seq<Month>)
    ensures forall m :: m in months <==> exists g :: g in grouped && g.month == m
  {
    var months := seq(|grouped|, i requires 0 <= i < |grouped| => grouped[i].month);
    assert forall g :: g in grouped ==> g.month in months by {
      forall g | g in grouped ensures g.month in months {
        var i :| 0 <= i < |grouped| && grouped[i] == g;
        assert months[i] == g.month;
      }
    }
    months
  }

  function AccountsOf(grouped: seq<MonthlyRow>): (accounts: seq<string>)
    ensures forall a :: a in accounts <==> exists g :: g in grouped && g.account == a
  {
    var accounts := seq(|grouped|, i requires 0 <= i < |grouped| => grouped[i].account);
    assert forall g :: g in grouped ==> g.account in accounts by {
      forall g | g in grouped ensures g.account in accounts {
        var i :| 0 <= i < |grouped| && grouped[i] == g;
        assert accounts[i] == g.account;
      }
    }
    accounts
  }

  /** The accounts of the pivot, in row order. */
  function PivotAccounts(grouped: seq<MonthlyRow>): (accounts: seq<string>)
    ensures StrictlySorted(accounts, PivotLt)
    ensures forall a :: a in accounts <==> exists g :: g in grouped && g.account == a
  {
    PivotLtIsStrictTotalOrder();
    SortDistinctSpec(AccountsOf(grouped), PivotLt);
    SortDistinct(AccountsOf(grouped), PivotLt)
  }

  /** The month columns of the pivot, ascending. */
  function PivotMonths(grouped: seq<MonthlyRow>): (months: seq<Month>)
    ensures StrictlySorted(months, MonthLt)
    ensures forall m :: m in months <==> exists g :: g in grouped && g.month == m
  {
    MonthLtIsStrictTotalOrder();
    SortDistinctSpec(MonthsOf(grouped), MonthLt);
    SortDistinct(MonthsOf(grouped), MonthLt)
  }

  /** Lines 120-126: rows in (Category, Account) order, one zero-filled
      cell per month. */
  function IcPivot(grouped: seq<MonthlyRow>): (pivot: Pivot)
    ensures WellFormed(pivot)
  {
    Pivot(PivotMonths(grouped), PivotRowsFor(grouped, PivotMonths(grouped), PivotAccounts(grouped)))
  }

  // ---- Sections, totals and net income (lines 128-183) ----

  /** The pivot rows of one category, in pivot order. */
  function RowsIn(rows: seq<PivotRow>, c: Category): (selected: seq<PivotRow>)
    ensures forall r :: r in selected <==> r in rows && r.category == c
  {
    if rows == [] then []
    else if rows[0].category == c then [rows[0]] + RowsIn(rows[1..], c)
    else RowsIn(rows[1..], c)
  }

  function CellsOf(rows: seq<PivotRow>): (cells: seq<seq<int>>)
    ensures |cells| == |rows|
    ensures forall i :: 0 <= i < |rows| ==> cells[i] == rows[i].cells
  {
    seq(|rows|, i requires 0 <= i < |rows| => rows[i].cells)
  }

  predicate WellFormed(p: Pivot) {
    forall r :: r in p.rows ==> |r.cells| == |p.months|
  }

  /** `calc_net_income`: per month, the Revenue cells plus the Expense
      cells, both as signed. */
  function CalcNetIncome(p: Pivot): (netIncome: seq<int>)
    requires WellFormed(p)
    ensures |netIncome| == |p.months|
  {
    var w := |p.months|;
    seq(w, j requires 0 <= j < w =>
      ColumnSum(CellsOf(RowsIn(p.rows, Revenue)), j) + ColumnSum(CellsOf(RowsIn(p.rows, Expense)), j))
  }

  /** An account row of a section: the stripped name and the month cells. */
  datatype Item = Item(name: string, cells: seq<int>)

  function ItemsOf(rows: seq<PivotRow>, word: string): (items: seq<Item>)
    requires word != []
    ensures |items| == |rows|
    ensures forall i :: 0 <= i < |rows| ==> items[i] == Item(Strip(rows[i].account, word), rows[i].cells)
  {
    seq(|rows|, i requires 0 <= i < |rows| => Item(Strip(rows[i].account, word), rows[i].cells))
  }

  /** `split_expenses_revenues`: the Expense rows with "Expense" and the
      whitespace after it deleted from their names, and the Revenue rows
      with "Revenue" deleted likewise. */
  function SplitExpensesRevenues(p: Pivot): (sections: (seq<Item>, seq<Item>))
  {
    (ItemsOf(RowsIn(p.rows, Expense), "Expense"), ItemsOf(RowsIn(p.rows, Revenue), "Revenue"))
  }

  predicate ItemsHaveWidth(items: seq<Item>, width: nat) {
    forall i :: 0 <= i < |items| ==> |items[i].cells| == width
  }

  function ItemCells(items: seq<Item>): (cells: seq<seq<int>>)
    ensures |cells| == |items|
    ensures forall i :: 0 <= i < |items| ==> cells[i] == items[i].cells
  {
    seq(|items|, i requires 0 <= i < |items| => items[i].cells)
  }

  /** A line of `ic_final`: the section key of the concat, the row label,
      the month cells and the Year Total. */
  datatype IcLine = IcLine(section: string, name: string, cells: seq<int>, yearTotal: int)

  datatype IncomeReport = IncomeReport(months: seq<Month>, lines: seq<IcLine>)

  /** A month column as line 179 selects it: its "YYYY-MM" text matches
      `\d{4}-\d{2}`. */
  predicate SelectedColumn(m: Month) {
    ValidMonth(m) && MatchesMonthPattern(MonthKey(m))
  }

  /** Line 180: the sum of a line's cells over the selected month columns. */
  function YearTotal(months: seq<Month>, cells: seq<int>): int
    requires |cells| == |months|
  {
    if months == [] then 0
    else (if SelectedColumn(months[0]) then cells[0] else 0) + YearTotal(months[1..], cells[1..])
  }

  function LineOf(months: seq<Month>, section: string, name: string, cells: seq<int>): IcLine
    requires |cells| == |months|
  {
    IcLine(section, name, cells, YearTotal(months, cells))
  }

  function SectionLines(months: seq<Month>, section: string, items: seq<Item>, negate: bool): (lines: seq<IcLine>)
    requires ItemsHaveWidth(items, |months|)
    ensures |lines| == |items|
    ensures forall i {:trigger lines[i]} :: 0 <= i < |items| ==>
      lines[i] == LineOf(months, section, items[i].name, if negate then Negate(items[i].cells) else items[i].cells)
  {
    seq(|items|, i requires 0 <= i < |items| =>
      LineOf(months, section, items[i].name, if negate then Negate(items[i].cells) else items[i].cells))
  }

  /** Lines 173-176: the revenue lines, Total Revenues, the expense lines
      negated, Total Expenses, Net Income. The concat keys are 'Revenues',
      '', 'Expenses', '' and 'Net Income'. */
  function AssembleIc(months: seq<Month>, revenues: seq<Item>, expenses: seq<Item>, netIncome: seq<int>): (lines: seq<IcLine>)
    requires ItemsHaveWidth(revenues, |months|) && ItemsHaveWidth(expenses, |months|)
    requires |netIncome| == |months|
    ensures |lines| == |revenues| + |expenses| + 3
  {
    var w := |months|;
    SectionLines(months, "Revenues", revenues, false)
      + [LineOf(months, "", "Total Revenues", TotalRow(ItemCells(revenues), w))]
      + SectionLines(months, "Expenses", expenses, true)
      + [LineOf(months, "", "Total Expenses", Negate(TotalRow(ItemCells(expenses), w)))]
      + [LineOf(months, "Net Income", "Net Income", netIncome)]
  }

  /** The five parts of the statement, in order. */
  lemma IcLayout(months: seq<Month>, revenues: seq<Item>, expenses: seq<Item>, netIncome: seq<int>)
    requires ItemsHaveWidth(revenues, |months|) && ItemsHaveWidth(expenses, |months|)
    requires |netIncome| == |months|
    ensures var lines, nr, ne, w := AssembleIc(months, revenues, expenses, netIncome), |revenues|, |expenses|, |months|;
      && lines[..nr] == SectionLines(months, "Revenues", revenues, false)
      && lines[nr] == LineOf(months, "", "Total Revenues", TotalRow(ItemCells(revenues), w))
      && lines[nr + 1..nr + ne + 1] == SectionLines(months, "Expenses", expenses, true)
      && lines[nr + ne + 1] == LineOf(months, "", "Total Expenses", Negate(TotalRow(ItemCells(expenses), w)))
      && lines[nr + ne + 2] == LineOf(months, "Net Income", "Net Income", netIncome)
  {
  }

  /** `ic_final` built from the pivot. */
  function IcStatement(p: Pivot): (report: IncomeReport)
    requires WellFormed(p)
  {
    var sections := SplitExpensesRevenues(p);
    IncomeReport(p.months, AssembleIc(p.months, sections.1, sections.0, CalcNetIncome(p)))
  }

  /** `clean_ic` on the grouped rows: the report and the net income row. */
  function CleanIc(grouped: seq<MonthlyRow>): (result: (IncomeReport, seq<int>))
    ensures |result.1| == |result.0.months|
  {
    var p := IcPivot(grouped);
    (IcStatement(p), CalcNetIncome(p))
  }

  // ---- What the statement says about the ledger ----

  /** A pivot cell is the account's signed amounts in that month; a cell
      the grouped table has no row for is 0 and so is that sum. */
  lemma PivotCellIsMonthlySum(ic: seq<DailyRow>, a: string, m: Month)
    ensures PivotCell(GroupIc(ic), a, m) == IcSum(ic, a, m)
  {
    var grouped := GroupIc(ic);
    AccountMonthLtIsStrictTotalOrder();
    forall i, j | 0 <= i < j < |grouped| ensures KeyOfMonthly(grouped[i]) != KeyOfMonthly(grouped[j]) {
      assert MonthlyLt(grouped[i], grouped[j]);
    }
    PivotCellOfDistinctKeys(grouped, ic, a, m);
    if !exists g :: g in grouped && KeyOfMonthly(g) == AccountMonth(a, m) {
      forall d | d in ic ensures AccountMonthOf(d) != AccountMonth(a, m) {
        var g :| g in grouped && KeyOfMonthly(g) == AccountMonthOf(d);
      }
      IcSumAbsent(ic, a, m);
    }
  }

  lemma {:induction false} PivotCellOfDistinctKeys(grouped: seq<MonthlyRow>, ic: seq<DailyRow>, a: string, m: Month)
    requires forall i, j :: 0 <= i < j < |grouped| ==> KeyOfMonthly(grouped[i]) != KeyOfMonthly(grouped[j])
    requires forall g :: g in grouped ==> g.amount == IcSum(ic, g.account, g.month)
    ensures PivotCell(grouped, a, m) ==
      if exists g :: g in grouped && KeyOfMonthly(g) == AccountMonth(a, m) then IcSum(ic, a, m) else 0
  {
    if grouped != [] {
      var rest := grouped[1..];
      assert forall i, j :: 0 <= i < j < |rest| ==> KeyOfMonthly(rest[i]) != KeyOfMonthly(rest[j]) by {
        forall i, j | 0 <= i < j < |rest| ensures KeyOfMonthly(rest[i]) != KeyOfMonthly(rest[j]) {
          assert rest[i] == grouped[i + 1] && rest[j] == grouped[j + 1];
        }
      }
      PivotCellOfDistinctKeys(rest, ic, a, m);
      if KeyOfMonthly(grouped[0]) == AccountMonth(a, m) {
        forall g | g in rest ensures KeyOfMonthly(g) != AccountMonth(a, m) {
          var j :| 0 <= j < |rest| && rest[j] == g;
          assert grouped[j + 1] == g;
        }
      } else {
        assert forall g :: g in grouped <==> g == grouped[0] || g in rest;
      }
    }
  }

  lemma {:induction false} IcSumAbsent(ic: seq<DailyRow>, a: string, m: Month)
    requires forall d :: d in ic ==> AccountMonthOf(d) != AccountMonth(a, m)
    ensures IcSum(ic, a, m) == 0
  {
    if ic != [] {
      assert ic[0] in ic;
      IcSumAbsent(ic[1..], a, m);
    }
  }

  /** The sums of month `m` of the accounts of `accounts`, added up. */
  function AccountsTotal(accounts: seq<string>, ic: seq<DailyRow>, m: Month): int {
    if accounts == [] then 0 else IcSum(ic, accounts[0], m) + AccountsTotal(accounts[1..], ic, m)
  }

  lemma {:induction false} AccountsTotalOfNoRows(accounts: seq<string>, m: Month)
    ensures AccountsTotal(accounts, [], m) == 0
  {
    if accounts != [] {
      AccountsTotalOfNoRows(accounts[1..], m);
    }
  }

  /** Peeling the first daily row off every account's sum. */
  lemma {:induction false} AccountsTotalCons(accounts: seq<string>, ic: seq<DailyRow>, m: Month)
    requires ic != [] && Distinct(accounts)
    ensures AccountsTotal(accounts, ic, m) ==
      (if ic[0].yearMonth == m && ic[0].account in accounts then ic[0].amount else 0)
      + AccountsTotal(accounts, ic[1..], m)
  {
    if accounts != [] {
      var rest := accounts[1..];
      assert Distinct(rest) by {
        forall i, j | 0 <= i < j < |rest| ensures rest[i] != rest[j] {
          assert rest[i] == accounts[i + 1] && rest[j] == accounts[j + 1];
        }
      }
      AccountsTotalCons(rest, ic, m);
      assert accounts[0] !in rest by {
        forall i | 0 <= i < |rest| ensures rest[i] != accounts[0] {
          assert rest[i] == accounts[i + 1];
        }
      }
      assert forall x :: x in accounts <==> x == accounts[0] || x in rest;
    }
  }

  /** Regrouping: adding the month sums of every account, each once, gives
      the month's total. */
  lemma {:induction false} RegroupByAccount(accounts: seq<string>, ic: seq<DailyRow>, m: Month)
    requires Distinct(accounts)
    requires forall d :: d in ic ==> d.account in accounts
    ensures AccountsTotal(accounts, ic, m) == MonthTotal(ic, m)
  {
    if ic == [] {
      AccountsTotalOfNoRows(accounts, m);
    } else {
      assert ic[0] in ic;
      AccountsTotalCons(accounts, ic, m);
      RegroupByAccount(accounts, ic[1..], m);
    }
  }

  /** Column `j` of the pivot rows of `accounts`, added down. */
  lemma {:induction false} PivotColumnTotal(ic: seq<DailyRow>, months: seq<Month>, accounts: seq<string>, j: nat)
    requires j < |months|
    ensures forall r :: r in CellsOf(PivotRowsFor(GroupIc(ic), months, accounts)) ==> j < |r|
    ensures ColumnSum(CellsOf(PivotRowsFor(GroupIc(ic), months, accounts)), j) == AccountsTotal(accounts, ic, months[j])
  {
    var rows := PivotRowsFor(GroupIc(ic), months, accounts);
    if accounts != [] {
      PivotColumnTotal(ic, months, accounts[1..], j);
      assert CellsOf(rows)[1..] == CellsOf(PivotRowsFor(GroupIc(ic), months, accounts[1..]));
      PivotCellIsMonthlySum(ic, accounts[0], months[j]);
    }
  }

  /** The Revenue rows and the Expense rows together are all the rows. */
  lemma {:induction false} CategorySplit(rows: seq<PivotRow>, j: nat)
    requires forall r :: r in rows ==> j < |r.cells|
    ensures ColumnSum(CellsOf(RowsIn(rows, Revenue)), j) + ColumnSum(CellsOf(RowsIn(rows, Expense)), j)
         == ColumnSum(CellsOf(rows), j)
  {
    if rows != [] {
      CategorySplit(rows[1..], j);
      CellsColumnCons(rows, j);
      if rows[0].category == Revenue {
        CellsColumnCons(RowsIn(rows, Revenue), j);
      } else {
        CellsColumnCons(RowsIn(rows, Expense), j);
      }
    }
  }

  lemma CellsColumnCons(rows: seq<PivotRow>, j: nat)
    requires rows != [] && forall r :: r in rows ==> j < |r.cells|
    ensures forall r :: r in CellsOf(rows) ==> j < |r|
    ensures ColumnSum(CellsOf(rows), j) == rows[0].cells[j] + ColumnSum(CellsOf(rows[1..]), j)
  {
    assert CellsOf(rows)[1..] == CellsOf(rows[1..]);
  }

  /** Net income of a month is the total of the signed amounts of every
      income-statement row of that month. */
  lemma NetIncomeIsMonthTotal(ic: seq<DailyRow>, j: nat)
    requires j < |CleanIc(GroupIc(ic)).1|
    ensures CleanIc(GroupIc(ic)).1[j] == MonthTotal(ic, CleanIc(GroupIc(ic)).0.months[j])
  {
    CleanIcParts(GroupIc(ic));
    PivotNetIncome(ic, j);
  }

  lemma PivotNetIncome(ic: seq<DailyRow>, j: nat)
    requires j < |IcPivot(GroupIc(ic)).months|
    ensures CalcNetIncome(IcPivot(GroupIc(ic)))[j] == MonthTotal(ic, IcPivot(GroupIc(ic)).months[j])
  {
    var grouped := GroupIc(ic);
    var p := IcPivot(grouped);
    var accounts := PivotAccounts(grouped);
    CategorySplit(p.rows, j);
    PivotColumnTotal(ic, p.months, accounts, j);
    PivotLtIsStrictTotalOrder();
    SortedIsDistinct(accounts, PivotLt);
    forall d | d in ic ensures d.account in accounts {
      var g :| g in grouped && KeyOfMonthly(g) == AccountMonthOf(d);
    }
    RegroupByAccount(accounts, ic, p.months[j]);
  }

  /** The months and the net income row of the statement come from the pivot. */
  lemma CleanIcParts(grouped: seq<MonthlyRow>)
    ensures CleanIc(grouped).0 == IcStatement(IcPivot(grouped))
    ensures CleanIc(grouped).0.months == IcPivot(grouped).months
    ensures CleanIc(grouped).1 == CalcNetIncome(IcPivot(grouped))
  {
  }

  // ---- The layout of ic_final ----

  function LineCells(lines: seq<IcLine>): (cells: seq<seq<int>>)
    ensures |cells| == |lines|
    ensures forall i :: 0 <= i < |lines| ==> cells[i] == lines[i].cells
  {
    seq(|lines|, i requires 0 <= i < |lines| => lines[i].cells)
  }

  lemma SectionLineCells(months: seq<Month>, section: string, items: seq<Item>)
    requires ItemsHaveWidth(items, |months|)
    ensures LineCells(SectionLines(months, section, items, false)) == ItemCells(items)
    ensures LineCells(SectionLines(months, section, items, true)) == NegateRows(ItemCells(items))
  {
  }

  /** A line has one cell per month column and, as its Year Total, the sum
      of its selected month cells (line 180). */
  predicate Totalled(months: seq<Month>, lines: seq<IcLine>) {
    forall l :: l in lines ==> |l.cells| == |months| && l.yearTotal == YearTotal(months, l.cells)
  }

  /** Every line of the statement is Totalled. */
  lemma AssembleIcTotalled(months: seq<Month>, revenues: seq<Item>, expenses: seq<Item>, netIncome: seq<int>)
    requires ItemsHaveWidth(revenues, |months|) && ItemsHaveWidth(expenses, |months|)
    requires |netIncome| == |months|
    ensures Totalled(months, AssembleIc(months, revenues, expenses, netIncome))
  {
    var w := |months|;
    var revenueLines, expenseLines := SectionLines(months, "Revenues", revenues, false), SectionLines(months, "Expenses", expenses, true);
    var totalRevenues := [LineOf(months, "", "Total Revenues", TotalRow(ItemCells(revenues), w))];
    var totalExpenses := [LineOf(months, "", "Total Expenses", Negate(TotalRow(ItemCells(expenses), w)))];
    var netIncomeLine := [LineOf(months, "Net Income", "Net Income", netIncome)];
    SectionLinesTotals(months, "Revenues", revenues, false);
    SectionLinesTotals(months, "Expenses", expenses, true);
    TotalledConcat(months, revenueLines, totalRevenues);
    TotalledConcat(months, revenueLines + totalRevenues, expenseLines);
    TotalledConcat(months, revenueLines + totalRevenues + expenseLines, totalExpenses);
    TotalledConcat(months, revenueLines + totalRevenues + expenseLines + totalExpenses, netIncomeLine);
  }

  lemma TotalledConcat(months: seq<Month>, a: seq<IcLine>, b: seq<IcLine>)
    requires Totalled(months, a) && Totalled(months, b)
    ensures Totalled(months, a + b)
  {
    forall l | l in a + b ensures |l.cells| == |months| && l.yearTotal == YearTotal(months, l.cells) {
      assert l in a || l in b;
    }
  }

  lemma SectionLinesTotals(months: seq<Month>, section: string, items: seq<Item>, negate: bool)
    requires ItemsHaveWidth(items, |months|)
    ensures Totalled(months, SectionLines(months, section, items, negate))
  {
    var lines := SectionLines(months, section, items, negate);
    forall l | l in lines ensures |l.cells| == |months| && l.yearTotal == YearTotal(months, l.cells) {
      var i :| 0 <= i < |lines| && lines[i] == l;
    }
  }



  /** Total Revenues is the column sum of the revenue lines shown above it. */
  lemma RevenueTotalIsColumnSum(months: seq<Month>, revenues: seq<Item>, expenses: seq<Item>, netIncome: seq<int>, j: nat)
    requires ItemsHaveWidth(revenues, |months|) && ItemsHaveWidth(expenses, |months|)
    requires |netIncome| == |months| && j < |months|
    ensures var lines, nr := AssembleIc(months, revenues, expenses, netIncome), |revenues|;
      && (forall r :: r in LineCells(lines[..nr]) ==> j < |r|)
      && lines[nr].cells[j] == ColumnSum(LineCells(lines[..nr]), j) == ColumnSum(ItemCells(revenues), j)
  {
    var lines, nr := AssembleIc(months, revenues, expenses, netIncome), |revenues|;
    IcLayout(months, revenues, expenses, netIncome);
    SectionLineCells(months, "Revenues", revenues);
    assert LineCells(lines[..nr]) == ItemCells(revenues);
    assert lines[nr].cells == TotalRow(ItemCells(revenues), |months|);
  }

  /** The displayed Total Expenses is the column sum of the displayed
      (negated) expense lines, and the negated total of the expense rows. */
  lemma ExpenseTotalIsColumnSum(months: seq<Month>, revenues: seq<Item>, expenses: seq<Item>, netIncome: seq<int>, j: nat)
    requires ItemsHaveWidth(revenues, |months|) && ItemsHaveWidth(expenses, |months|)
    requires |netIncome| == |months| && j < |months|
    ensures var lines, nr, ne := AssembleIc(months, revenues, expenses, netIncome), |revenues|, |expenses|;
      && (forall r :: r in LineCells(lines[nr + 1..nr + ne + 1]) ==> j < |r|)
      && lines[nr + ne + 1].cells[j] == ColumnSum(LineCells(lines[nr + 1..nr + ne + 1]), j) == -ColumnSum(ItemCells(expenses), j)
  {
    ExpenseLinesCells(months, revenues, expenses, netIncome);
    TotalOfNegatedRows(ItemCells(expenses), |months|);
    ColumnSumNegated(ItemCells(expenses), j);
  }

  /** The displayed expense lines hold the negated expense rows, and Total
      Expenses their negated total. */
  lemma ExpenseLinesCells(months: seq<Month>, revenues: seq<Item>, expenses: seq<Item>, netIncome: seq<int>)
    requires ItemsHaveWidth(revenues, |months|) && ItemsHaveWidth(expenses, |months|)
    requires |netIncome| == |months|
    ensures var lines, nr, ne := AssembleIc(months, revenues, expenses, netIncome), |revenues|, |expenses|;
      && LineCells(lines[nr + 1..nr + ne + 1]) == NegateRows(ItemCells(expenses))
      && lines[nr + ne + 1].cells == Negate(TotalRow(ItemCells(expenses), |months|))
  {
    IcLayout(months, revenues, expenses, netIncome);
    SectionLineCells(months, "Expenses", expenses);
  }

  /** The shape of the statement: one line per Revenue row and per Expense
      row of the pivot plus three, each with one cell per month; the two
      total lines keyed ''; Net Income last, holding calc_net_income; every
      Year Total the sum of its line's selected month cells. */
  lemma IcStatementShape(p: Pivot)
    requires WellFormed(p)
    ensures
      var report := IcStatement(p);
      var nr, ne := |RowsIn(p.rows, Revenue)|, |RowsIn(p.rows, Expense)|;
      && report.months == p.months
      && |report.lines| == nr + ne + 3
      && (forall l :: l in report.lines ==> |l.cells| == |p.months| && l.yearTotal == YearTotal(p.months, l.cells))
      && report.lines[nr].section == "" && report.lines[nr].name == "Total Revenues"
      && report.lines[nr + ne + 1].section == "" && report.lines[nr + ne + 1].name == "Total Expenses"
      && report.lines[nr + ne + 2].section == "Net Income" && report.lines[nr + ne + 2].name == "Net Income"
      && report.lines[nr + ne + 2].cells == CalcNetIncome(p)
  {
    var expenses, revenues := SplitExpensesRevenues(p).0, SplitExpensesRevenues(p).1;
    var lines := AssembleIc(p.months, revenues, expenses, CalcNetIncome(p));
    assert IcStatement(p).lines == lines;
    IcLayout(p.months, revenues, expenses, CalcNetIncome(p));
    AssembleIcTotalled(p.months, revenues, expenses, CalcNetIncome(p));
  }

  /** The first lines are the Revenue rows of the pivot, in pivot order,
      under 'Revenues', with "Revenue" stripped from their names. */
  lemma IcRevenueLines(p: Pivot)
    requires WellFormed(p)
    ensures
      var lines, rev := IcStatement(p).lines, RowsIn(p.rows, Revenue);
      && |rev| <= |lines|
      && forall i :: 0 <= i < |rev| ==>
           && lines[i].section == "Revenues"
           && lines[i].name == Strip(rev[i].account, "Revenue")
           && lines[i].cells == rev[i].cells
  {
    var expenses, revenues := SplitExpensesRevenues(p).0, SplitExpensesRevenues(p).1;
    var lines := AssembleIc(p.months, revenues, expenses, CalcNetIncome(p));
    assert IcStatement(p).lines == lines;
    IcLayout(p.months, revenues, expenses, CalcNetIncome(p));
    var nr := |revenues|;
    assert forall i :: 0 <= i < nr ==> lines[i] == lines[..nr][i];
  }

  /** Line `i` of the Expense rows: after Total Revenues come the Expense
      rows of the pivot, in pivot order, under 'Expenses', negated, with
      "Expense" stripped. */
  lemma IcExpenseLine(p: Pivot, i: nat)
    requires WellFormed(p) && i < |RowsIn(p.rows, Expense)|
    ensures
      var lines, row := IcStatement(p).lines, RowsIn(p.rows, Expense)[i];
      var k := |RowsIn(p.rows, Revenue)| + 1 + i;
      && k < |lines|
      && lines[k].section == "Expenses"
      && lines[k].name == Strip(row.account, "Expense")
      && lines[k].cells == Negate(row.cells)
  {
    AssembledExpense(p.months, SplitExpensesRevenues(p).1, SplitExpensesRevenues(p).0, CalcNetIncome(p), i);
  }

  lemma AssembledExpense(months: seq<Month>, revenues: seq<Item>, expenses: seq<Item>, netIncome: seq<int>, i: nat)
    requires ItemsHaveWidth(revenues, |months|) && ItemsHaveWidth(expenses, |months|)
    requires |netIncome| == |months| && i < |expenses|
    ensures AssembleIc(months, revenues, expenses, netIncome)[|revenues| + 1 + i]
         == LineOf(months, "Expenses", expenses[i].name, Negate(expenses[i].cells))
  {
    IcLayout(months, revenues, expenses, netIncome);
    assert AssembleIc(months, revenues, expenses, netIncome)[|revenues| + 1..|revenues| + |expenses| + 1][i]
        == SectionLines(months, "Expenses", expenses, true)[i];
  }

  /** Total Revenues adds the Revenue rows of the pivot, month by month. */
  lemma IcRevenueTotal(p: Pivot, j: nat)
    requires WellFormed(p) && j < |p.months|
    ensures
      var lines, rev := IcStatement(p).lines, RowsIn(p.rows, Revenue);
      && |rev| < |lines| && j < |lines[|rev|].cells|
      && (forall r :: r in CellsOf(rev) ==> j < |r|)
      && lines[|rev|].cells[j] == ColumnSum(CellsOf(rev), j)
  {
    var expenses, revenues := SplitExpensesRevenues(p).0, SplitExpensesRevenues(p).1;
    var netIncome := CalcNetIncome(p);
    var lines := AssembleIc(p.months, revenues, expenses, netIncome);
    assert IcStatement(p).lines == lines;
    RevenueTotalIsColumnSum(p.months, revenues, expenses, netIncome, j);
    assert ItemCells(revenues) == CellsOf(RowsIn(p.rows, Revenue));
  }

  /** The displayed Total Expenses is minus the sum of the Expense rows of
      the pivot, month by month. */
  lemma IcExpenseTotal(p: Pivot, j: nat)
    requires WellFormed(p) && j < |p.months|
    ensures
      var lines, exp := IcStatement(p).lines, RowsIn(p.rows, Expense);
      var k := |RowsIn(p.rows, Revenue)| + |exp| + 1;
      && k < |lines| && j < |lines[k].cells|
      && (forall r :: r in CellsOf(exp) ==> j < |r|)
      && lines[k].cells[j] == -ColumnSum(CellsOf(exp), j)
  {
    var expenses, revenues := SplitExpensesRevenues(p).0, SplitExpensesRevenues(p).1;
    var netIncome := CalcNetIncome(p);
    var lines := AssembleIc(p.months, revenues, expenses, netIncome);
    assert IcStatement(p).lines == lines;
    ExpenseTotalIsColumnSum(p.months, revenues, expenses, netIncome, j);
    assert ItemCells(expenses) == CellsOf(RowsIn(p.rows, Expense));
  }

  /** Net Income is Total Revenues less the displayed Total Expenses. */
  lemma IcNetIncomeIsTotalsDifference(p: Pivot, j: nat)
    requires WellFormed(p) && j < |p.months|
    ensures
      var lines := IcStatement(p).lines;
      var nr, ne := |RowsIn(p.rows, Revenue)|, |RowsIn(p.rows, Expense)|;
      && nr + ne + 1 < |lines| && j < |lines[nr].cells| && j < |lines[nr + ne + 1].cells|
      && CalcNetIncome(p)[j] == lines[nr].cells[j] - lines[nr + ne + 1].cells[j]
  {
    IcRevenueTotal(p, j);
    IcExpenseTotal(p, j);
  }

  // ---- Classification, order and the Year Total column ----

  /** Every pivot row is one account of the grouped table, filed under the
      category its name gives it. */
  lemma IcPivotRowsClassified(grouped: seq<MonthlyRow>)
    ensures forall r :: r in IcPivot(grouped).rows ==>
      && (r.category == Revenue <==> IsRevenueAccount(r.account))
      && exists g :: g in grouped && g.account == r.account
    ensures forall g :: g in grouped ==> exists r :: r in IcPivot(grouped).rows && r.account == g.account
  {
    var rows, accounts := IcPivot(grouped).rows, PivotAccounts(grouped);
    forall r | r in rows
      ensures && (r.category == Revenue <==> IsRevenueAccount(r.account))
              && exists g :: g in grouped && g.account == r.account
    {
      var i :| 0 <= i < |rows| && rows[i] == r;
      assert accounts[i] in accounts;
    }
    forall g | g in grouped ensures exists r :: r in rows && r.account == g.account {
      assert g.account in accounts;
      var i :| 0 <= i < |accounts| && accounts[i] == g.account;
      assert rows[i] in rows;
    }
  }

  /** Every account of the pivot is the Account of some daily income row. */
  lemma PivotAccountOfIc(ic: seq<DailyRow>, r: PivotRow)
    requires r in IcPivot(GroupIc(ic)).rows
    ensures exists d :: d in ic && d.account == r.account
  {
    IcPivotRowsClassified(GroupIc(ic));
    var g :| g in GroupIc(ic) && g.account == r.account;
    GroupedAccountOfIc(ic, g);
  }

  lemma GroupedAccountOfIc(ic: seq<DailyRow>, g: MonthlyRow)
    requires g in GroupIc(ic)
    ensures exists d :: d in ic && d.account == g.account
  {
    var d :| d in ic && AccountMonthOf(d) == KeyOfMonthly(g);
  }

  predicate AccountsAscend(rows: seq<PivotRow>, lt: (string, string) -> bool) {
    forall i, j :: 0 <= i < j < |rows| ==> lt(rows[i].account, rows[j].account)
  }

  lemma {:induction false} RowsInKeepsOrder(rows: seq<PivotRow>, c: Category)
    requires AccountsAscend(rows, PivotLt)
    ensures AccountsAscend(RowsIn(rows, c), PivotLt)
  {
    if rows != [] {
      AscendTail(rows, PivotLt);
      RowsInKeepsOrder(rows[1..], c);
      if rows[0].category == c {
        HeadBeforeSelected(rows, c);
        AscendCons(rows[0], RowsIn(rows[1..], c), PivotLt);
      }
    }
  }

  lemma AscendTail(rows: seq<PivotRow>, lt: (string, string) -> bool)
    requires rows != [] && AccountsAscend(rows, lt)
    ensures AccountsAscend(rows[1..], lt)
  {
    forall i, j | 0 <= i < j < |rows| - 1 ensures lt(rows[1..][i].account, rows[1..][j].account) {
      assert rows[1..][i] == rows[i + 1] && rows[1..][j] == rows[j + 1];
    }
  }

  lemma AscendCons(x: PivotRow, rows: seq<PivotRow>, lt: (string, string) -> bool)
    requires AccountsAscend(rows, lt)
    requires forall j :: 0 <= j < |rows| ==> lt(x.account, rows[j].account)
    ensures AccountsAscend([x] + rows, lt)
  {
    forall i, j | 0 <= i < j < |rows| + 1 ensures lt(([x] + rows)[i].account, ([x] + rows)[j].account) {
      if i > 0 {
        assert ([x] + rows)[i] == rows[i - 1];
      }
      assert ([x] + rows)[j] == rows[j - 1];
    }
  }

  lemma HeadBeforeSelected(rows: seq<PivotRow>, c: Category)
    requires rows != [] && AccountsAscend(rows, PivotLt)
    ensures forall j :: 0 <= j < |RowsIn(rows[1..], c)| ==> PivotLt(rows[0].account, RowsIn(rows[1..], c)[j].account)
  {
    var sel := RowsIn(rows[1..], c);
    forall j | 0 <= j < |sel| ensures PivotLt(rows[0].account, sel[j].account) {
      assert sel[j] in rows[1..];
      var k :| 0 <= k < |rows[1..]| && rows[1..][k] == sel[j];
      assert rows[k + 1] == sel[j];
    }
  }

  /** Within a section the accounts are in ascending order of name. */
  lemma IcSectionSorted(grouped: seq<MonthlyRow>, c: Category)
    ensures AccountsAscend(RowsIn(IcPivot(grouped).rows, c), StrLt)
  {
    PivotRowsAscend(grouped);
    RowsInKeepsOrder(IcPivot(grouped).rows, c);
    IcPivotRowsClassified(grouped);
    OneCategoryAscends(RowsIn(IcPivot(grouped).rows, c), c);
  }

  lemma PivotRowsAscend(grouped: seq<MonthlyRow>)
    ensures AccountsAscend(IcPivot(grouped).rows, PivotLt)
  {
    var rows, accounts := IcPivot(grouped).rows, PivotAccounts(grouped);
    forall i, j | 0 <= i < j < |rows| ensures PivotLt(rows[i].account, rows[j].account) {
      assert rows[i].account == accounts[i] && rows[j].account == accounts[j];
    }
  }

  /** Within one category the pivot order is the order of names. */
  lemma OneCategoryAscends(rows: seq<PivotRow>, c: Category)
    requires AccountsAscend(rows, PivotLt)
    requires forall r :: r in rows ==> CategoryOf(r.account) == c
    ensures AccountsAscend(rows, StrLt)
  {
    forall i, j | 0 <= i < j < |rows| ensures StrLt(rows[i].account, rows[j].account) {
      assert rows[i] in rows && rows[j] in rows;
    }
  }

  /** Every month of a ledger is written "YYYY-MM", so the Year Total of a
      line adds all its cells. */
  lemma {:induction false} YearTotalIsRowSum(months: seq<Month>, cells: seq<int>)
    requires |cells| == |months|
    requires forall m :: m in months ==> ValidMonth(m)
    ensures YearTotal(months, cells) == Sum(cells)
  {
    if months != [] {
      MonthKeyMatchesPattern(months[0]);
      assert months[0] in months;
      YearTotalIsRowSum(months[1..], cells[1..]);
    }
  }

  /** The cell of a revenue line is the sum of the amounts of the daily
      income rows of that account and month. */
  lemma RevenueLineIsIcSum(ic: seq<DailyRow>, p: Pivot, statement: IncomeReport, i: nat, j: nat)
    requires p == IcPivot(GroupIc(ic)) && statement == IcStatement(p)
    requires i < |RowsIn(p.rows, Revenue)| && j < |p.months|
    ensures i < |statement.lines| && j < |statement.lines[i].cells|
    ensures statement.lines[i].cells[j] == IcSum(ic, RowsIn(p.rows, Revenue)[i].account, p.months[j])
  {
    var grouped := GroupIc(ic);
    IcRevenueLines(p);
    var r := RowsIn(p.rows, Revenue)[i];
    assert r in p.rows;
    var k :| 0 <= k < |p.rows| && p.rows[k] == r;
    assert r == PivotRowFor(grouped, p.months, PivotAccounts(grouped)[k]);
    PivotCellIsMonthlySum(ic, r.account, p.months[j]);
  }

  /** The cell of an expense line is minus the sum of the amounts of the
      daily income rows of that account and month. */
  lemma ExpenseLineIsIcSum(ic: seq<DailyRow>, p: Pivot, statement: IncomeReport, i: nat, j: nat)
    requires p == IcPivot(GroupIc(ic)) && statement == IcStatement(p)
    requires i < |RowsIn(p.rows, Expense)| && j < |p.months|
    ensures |RowsIn(p.rows, Revenue)| + 1 + i < |statement.lines|
    ensures j < |statement.lines[|RowsIn(p.rows, Revenue)| + 1 + i].cells|
    ensures statement.lines[|RowsIn(p.rows, Revenue)| + 1 + i].cells[j] ==
      -IcSum(ic, RowsIn(p.rows, Expense)[i].account, p.months[j])
  {
    ExpenseCellIsNegatedRow(p, i, j);
    ExpenseRowCellIsSum(ic, i, j);
  }

  lemma ExpenseCellIsNegatedRow(p: Pivot, i: nat, j: nat)
    requires WellFormed(p) && i < |RowsIn(p.rows, Expense)| && j < |p.months|
    ensures
      var lines, row := IcStatement(p).lines, RowsIn(p.rows, Expense)[i];
      var k := |RowsIn(p.rows, Revenue)| + 1 + i;
      && k < |lines| && j < |lines[k].cells| && lines[k].cells[j] == -row.cells[j]
  {
    IcExpenseLine(p, i);
  }

  lemma ExpenseRowCellIsSum(ic: seq<DailyRow>, i: nat, j: nat)
    requires i < |RowsIn(IcPivot(GroupIc(ic)).rows, Expense)| && j < |IcPivot(GroupIc(ic)).months|
    ensures var p := IcPivot(GroupIc(ic));
      RowsIn(p.rows, Expense)[i].cells[j] == IcSum(ic, RowsIn(p.rows, Expense)[i].account, p.months[j])
  {
    PivotRowCellIsSum(ic, RowsIn(IcPivot(GroupIc(ic)).rows, Expense)[i], j);
  }

  /** Every cell of the pivot of the grouped rows is a ledger sum. */
  lemma PivotRowCellIsSum(ic: seq<DailyRow>, r: PivotRow, j: nat)
    requires r in IcPivot(GroupIc(ic)).rows && j < |IcPivot(GroupIc(ic)).months|
    ensures j < |r.cells| && r.cells[j] == IcSum(ic, r.account, IcPivot(GroupIc(ic)).months[j])
  {
    var grouped := GroupIc(ic);
    var k :| 0 <= k < |IcPivot(grouped).rows| && IcPivot(grouped).rows[k] == r;
    assert r == PivotRowFor(grouped, PivotMonths(grouped), PivotAccounts(grouped)[k]);
    PivotCellIsMonthlySum(ic, r.account, PivotMonths(grouped)[j]);
  }
}
