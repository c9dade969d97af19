/** The balance sheet: the grouping and running total of the balance-sheet
  rows (DataScrub.py:85) and `clean_bs` (DataScrub.py:188-235).

  Line 85 sums the daily rows per (Account, Type, year_month), in that key
  order, and then replaces each sum by the running total of its Account
  (`groupby(level=0).cumsum()`): the running total restarts at each account
  but not at each Type, so an account booked under two Types carries the
  total of its first Type into the second.

  The pivot (lines 198-203) has one row per (Type, Account) and one column
  per month and no fill value, so a month in which an account has no group
  is NaN (None here) until the forward fill of line 207 carries the last
  balance into it. A line of the statement maps each month it has a value
  for to that value; the months it lacks are NaN.
*/
module BalanceSheet {
  import opened Order
  import opened Ledger
  import opened Daily
  import opened Tables

  datatype BsKey = BsKey(account: string, typ: string, month: Month)

  /** One row of `bs` after line 85: its key and its amount. */
  datatype BsGroup = BsGroup(key: BsKey, amount: int)

  function KeyOfRow(d: DailyRow): BsKey {
    BsKey(d.account, d.typ, d.yearMonth)
  }

  /** Account, then Type, then year_month. */
  predicate BsKeyLt(a: BsKey, b: BsKey) {
    || StrLt(a.account, b.account)
    || (a.account == b.account && StrLt(a.typ, b.typ))
    || (a.account == b.account && a.typ == b.typ && MonthLt(a.month, b.month))
  }

  predicate GroupLt(g: BsGroup, h: BsGroup) {
    BsKeyLt(g.key, h.key)
  }

  lemma BsKeyLtIsStrictTotalOrder()
    ensures IsStrictTotalOrder(BsKeyLt)
  {
    StrLtIsStrictTotalOrder();
    MonthLtIsStrictTotalOrder();
  }

  /** Keys in key order never go back in account order. */
  lemma BsKeyLtAccount(a: BsKey, b: BsKey)
    requires BsKeyLt(a, b)
    ensures a.account == b.account || StrLt(a.account, b.account)
  {
  }

  /** The signed amounts of the daily rows of key `k`. */
  function BsSum(bs: seq<DailyRow>, k: BsKey): int {
    if bs == [] then 0
    else (if KeyOfRow(bs[0]) == k then bs[0].amount else 0) + BsSum(bs[1..], k)
  }

  function BsKeys(bs: seq<DailyRow>): (keys: seq<BsKey>)
    ensures forall k :: k in keys <==> exists d :: d in bs && KeyOfRow(d) == k
  {
    var keys := seq(|bs|, i requires 0 <= i < |bs| => KeyOfRow(bs[i]));
    assert forall d :: d in bs ==> KeyOfRow(d) in keys by {
      forall d | d in bs ensures KeyOfRow(d) in keys {
        var i :| 0 <= i < |bs| && bs[i] == d;
        assert keys[i] == KeyOfRow(d);
      }
    }
    keys
  }

  function SortedKeys(bs: seq<DailyRow>): (keys: seq<BsKey>)
    ensures StrictlySorted(keys, BsKeyLt)
    ensures forall k :: k in keys <==> exists d :: d in bs && KeyOfRow(d) == k
  {
    BsKeyLtIsStrictTotalOrder();
    SortDistinctSpec(BsKeys(bs), BsKeyLt);
    SortDistinct(BsKeys(bs), BsKeyLt)
  }

  /** The group of each key of `keys`, holding the sum of its rows. */
  function GroupsFor(bs: seq<DailyRow>, keys: seq<BsKey>): (groups: seq<BsGroup>)
    ensures |groups| == |keys|
    ensures forall i :: 0 <= i < |keys| ==> groups[i] == BsGroup(keys[i], BsSum(bs, keys[i]))
  {
    if keys == [] then [] else [BsGroup(keys[0], BsSum(bs, keys[0]))] + GroupsFor(bs, keys[1..])
  }

  lemma GroupsForSorted(bs: seq<DailyRow>, keys: seq<BsKey>)
    requires StrictlySorted(keys, BsKeyLt)
    ensures StrictlySorted(GroupsFor(bs, keys), GroupLt)
    ensures forall g :: g in GroupsFor(bs, keys) ==> g.amount == BsSum(bs, g.key)
  {
    var groups := GroupsFor(bs, keys);
    forall g | g in groups ensures g.amount == BsSum(bs, g.key) {
      var i :| 0 <= i < |groups| && groups[i] == g;
    }
  }

  lemma GroupsForCover(bs: seq<DailyRow>, keys: seq<BsKey>)
    requires forall k :: k in keys <==> exists d :: d in bs && KeyOfRow(d) == k
    ensures forall d :: d in bs ==> exists g :: g in GroupsFor(bs, keys) && g.key == KeyOfRow(d)
    ensures forall g :: g in GroupsFor(bs, keys) ==> exists d :: d in bs && KeyOfRow(d) == g.key
  {
    var groups := GroupsFor(bs, keys);
    forall d | d in bs ensures exists g :: g in groups && g.key == KeyOfRow(d) {
      assert KeyOfRow(d) in keys;
      var i :| 0 <= i < |keys| && keys[i] == KeyOfRow(d);
      assert groups[i] in groups;
    }
    forall g | g in groups ensures exists d :: d in bs && KeyOfRow(d) == g.key {
      var i :| 0 <= i < |groups| && groups[i] == g;
      assert keys[i] in keys;
    }
  }

  /** `groupby(['Account', 'Type', 'year_month'])['gaap_amount'].sum()`:
      one group per key present, in key order, holding the sum of its rows. */
  function GroupBs(bs: seq<DailyRow>): (groups: seq<BsGroup>)
    ensures StrictlySorted(groups, GroupLt)
    ensures forall g :: g in groups ==> g.amount == BsSum(bs, g.key)
    ensures forall d :: d in bs ==> exists g :: g in groups && g.key == KeyOfRow(d)
    ensures forall g :: g in groups ==> exists d :: d in bs && KeyOfRow(d) == g.key
  {
    GroupsForSorted(bs, SortedKeys(bs));
    GroupsForCover(bs, SortedKeys(bs));
    GroupsFor(bs, SortedKeys(bs))
  }

  // ---- Sums over a selection of keys ----

  /** The amounts of the daily rows whose key `sel` selects. */
  function RowsWhere(bs: seq<DailyRow>, sel: BsKey -> bool): int {
    if bs == [] then 0 else (if sel(KeyOfRow(bs[0])) then bs[0].amount else 0) + RowsWhere(bs[1..], sel)
  }

  /** The amounts of the groups whose key `sel` selects. */
  function GroupsWhere(groups: seq<BsGroup>, sel: BsKey -> bool): int {
    if groups == [] then 0 else (if sel(groups[0].key) then groups[0].amount else 0) + GroupsWhere(groups[1..], sel)
  }

  lemma {:induction false} GroupsWhereAppend(a: seq<BsGroup>, b: seq<BsGroup>, sel: BsKey -> bool)
    ensures GroupsWhere(a + b, sel) == GroupsWhere(a, sel) + GroupsWhere(b, sel)
  {
    if a == [] {
      assert a + b == b;
    } else {
      assert (a + b)[1..] == a[1..] + b;
      GroupsWhereAppend(a[1..], b, sel);
    }
  }

  lemma {:induction false} GroupsWhereNone(groups: seq<BsGroup>, sel: BsKey -> bool)
    requires forall g :: g in groups ==> !sel(g.key)
    ensures GroupsWhere(groups, sel) == 0
  {
    if groups != [] {
      assert groups[0] in groups;
      GroupsWhereNone(groups[1..], sel);
    }
  }

  lemma {:induction false} GroupsWhereAgree(groups: seq<BsGroup>, s1: BsKey -> bool, s2: BsKey -> bool)
    requires forall g :: g in groups ==> s1(g.key) == s2(g.key)
    ensures GroupsWhere(groups, s1) == GroupsWhere(groups, s2)
  {
    if groups != [] {
      assert groups[0] in groups;
      GroupsWhereAgree(groups[1..], s1, s2);
    }
  }

  lemma {:induction false} RowsWhereAgree(bs: seq<DailyRow>, s1: BsKey -> bool, s2: BsKey -> bool)
    requires forall d :: d in bs ==> s1(KeyOfRow(d)) == s2(KeyOfRow(d))
    ensures RowsWhere(bs, s1) == RowsWhere(bs, s2)
  {
    if bs != [] {
      assert bs[0] in bs;
      RowsWhereAgree(bs[1..], s1, s2);
    }
  }

  lemma {:induction false} GroupsForNoRows(keys: seq<BsKey>, sel: BsKey -> bool)
    ensures GroupsWhere(GroupsFor([], keys), sel) == 0
  {
    if keys != [] {
      assert GroupsFor([], keys)[1..] == GroupsFor([], keys[1..]);
      GroupsForNoRows(keys[1..], sel);
    }
  }

  /** Peeling the first daily row off the sums of every group. */
  lemma {:induction false} GroupsForCons(keys: seq<BsKey>, bs: seq<DailyRow>, sel: BsKey -> bool)
    requires bs != [] && Distinct(keys)
    ensures GroupsWhere(GroupsFor(bs, keys), sel) ==
      (if KeyOfRow(bs[0]) in keys && sel(KeyOfRow(bs[0])) then bs[0].amount else 0)
      + GroupsWhere(GroupsFor(bs[1..], keys), sel)
  {
    if keys != [] {
      var rest := keys[1..];
      assert Distinct(rest) by {
        forall i, j | 0 <= i < j < |rest| ensures rest[i] != rest[j] {
          assert rest[i] == keys[i + 1] && rest[j] == keys[j + 1];
        }
      }
      GroupsForCons(rest, bs, sel);
      assert keys[0] !in rest by {
        forall i | 0 <= i < |rest| ensures rest[i] != keys[0] {
          assert rest[i] == keys[i + 1];
        }
      }
      assert forall x :: x in keys <==> x == keys[0] || x in rest;
      assert GroupsFor(bs, keys)[1..] == GroupsFor(bs, rest);
      assert GroupsFor(bs[1..], keys)[1..] == GroupsFor(bs[1..], rest);
    }
  }

  /** Regrouping: the groups of distinct keys covering every row add up to
      what the rows add up to, whatever the selection. */
  lemma {:induction false} RegroupKeys(keys: seq<BsKey>, bs: seq<DailyRow>, sel: BsKey -> bool)
    requires Distinct(keys)
    requires forall d :: d in bs ==> KeyOfRow(d) in keys
    ensures GroupsWhere(GroupsFor(bs, keys), sel) == RowsWhere(bs, sel)
  {
    if bs == [] {
      GroupsForNoRows(keys, sel);
    } else {
      assert bs[0] in bs;
      GroupsForCons(keys, bs, sel);
      RegroupKeys(keys, bs[1..], sel);
    }
  }

  lemma Regroup(bs: seq<DailyRow>, sel: BsKey -> bool)
    ensures GroupsWhere(GroupBs(bs), sel) == RowsWhere(bs, sel)
  {
    BsKeyLtIsStrictTotalOrder();
    SortedIsDistinct(SortedKeys(bs), BsKeyLt);
    RegroupKeys(SortedKeys(bs), bs, sel);
  }

  // ---- The running total of line 85 ----

  function SameAccount(a: string): BsKey -> bool {
    (k: BsKey) => k.account == a
  }

  /** `.groupby(level=0).cumsum()`: each group's amount becomes the total of
      the groups of its Account up to and including it, in table order. */
  function CumSumByAccount(groups: seq<BsGroup>): (cum: seq<BsGroup>)
    ensures |cum| == |groups|
    ensures forall i :: 0 <= i < |groups| ==> cum[i].key == groups[i].key
  {
    seq(|groups|, i requires 0 <= i < |groups| =>
      BsGroup(groups[i].key, GroupsWhere(groups[..i + 1], SameAccount(groups[i].key.account))))
  }

  /** The running total restarts at the first group of each account and
      otherwise adds the group's sum to the previous group's total. */
  lemma CumSumStep(groups: seq<BsGroup>, i: nat)
    requires StrictlySorted(groups, GroupLt) && i < |groups|
    ensures var cum := CumSumByAccount(groups);
      cum[i].amount == groups[i].amount
        + (if i > 0 && groups[i - 1].key.account == groups[i].key.account then cum[i - 1].amount else 0)
  {
    var a := groups[i].key.account;
    assert groups[..i + 1] == groups[..i] + [groups[i]];
    GroupsWhereAppend(groups[..i], [groups[i]], SameAccount(a));
    assert GroupsWhere([groups[i]], SameAccount(a)) == groups[i].amount by {
      assert [groups[i]][1..] == [];
    }
    if i > 0 && groups[i - 1].key.account == a {
    } else {
      forall g | g in groups[..i] ensures !SameAccount(a)(g.key) {
        var k :| 0 <= k < i && groups[k] == g;
        if g.key.account == a {
          StrLtIsStrictTotalOrder();
          assert GroupLt(groups[k], groups[i - 1]) || k == i - 1;
          assert GroupLt(groups[i - 1], groups[i]);
          BsKeyLtAccount(groups[i - 1].key, groups[i].key);
          if k < i - 1 {
            BsKeyLtAccount(groups[k].key, groups[i - 1].key);
          }
        }
      }
      GroupsWhereNone(groups[..i], SameAccount(a));
    }
  }

  /** Up to key `k` within its account: the same account and not after `k`. */
  function UpTo(k: BsKey): BsKey -> bool {
    (x: BsKey) => x.account == k.account && (x == k || BsKeyLt(x, k))
  }

  /** The balance of a group after line 85 is the signed amounts of the
      rows of its account whose (Type, month) is not after its own. */
  lemma BsRunningBalance(bs: seq<DailyRow>, i: nat)
    requires i < |GroupBs(bs)|
    ensures var g := CumSumByAccount(GroupBs(bs))[i];
      g.amount == RowsWhere(bs, UpTo(g.key))
  {
    CumSumIsUpTo(GroupBs(bs), i);
    Regroup(bs, UpTo(GroupBs(bs)[i].key));
  }

  /** In key order, the running total of a group is the total of the
      groups of its account not after it. */
  lemma CumSumIsUpTo(groups: seq<BsGroup>, i: nat)
    requires StrictlySorted(groups, GroupLt) && i < |groups|
    ensures CumSumByAccount(groups)[i].amount == GroupsWhere(groups, UpTo(groups[i].key))
  {
    PrefixIsUpTo(groups, i);
    SuffixIsAfter(groups, i);
    GroupsWhereSplit(groups, i + 1, UpTo(groups[i].key));
  }

  lemma GroupsWhereSplit(groups: seq<BsGroup>, n: nat, sel: BsKey -> bool)
    requires n <= |groups|
    ensures GroupsWhere(groups, sel) == GroupsWhere(groups[..n], sel) + GroupsWhere(groups[n..], sel)
  {
    assert groups == groups[..n] + groups[n..];
    GroupsWhereAppend(groups[..n], groups[n..], sel);
  }

  lemma PrefixIsUpTo(groups: seq<BsGroup>, i: nat)
    requires StrictlySorted(groups, GroupLt) && i < |groups|
    ensures GroupsWhere(groups[..i + 1], SameAccount(groups[i].key.account))
         == GroupsWhere(groups[..i + 1], UpTo(groups[i].key))
  {
    var k := groups[i].key;
    BsKeyLtIsStrictTotalOrder();
    forall g | g in groups[..i + 1] ensures SameAccount(k.account)(g.key) == UpTo(k)(g.key) {
      var j :| 0 <= j <= i && groups[j] == g;
      if j < i {
        assert GroupLt(groups[j], groups[i]);
      }
    }
    GroupsWhereAgree(groups[..i + 1], SameAccount(k.account), UpTo(k));
  }

  lemma SuffixIsAfter(groups: seq<BsGroup>, i: nat)
    requires StrictlySorted(groups, GroupLt) && i < |groups|
    ensures GroupsWhere(groups[i + 1..], UpTo(groups[i].key)) == 0
  {
    var k := groups[i].key;
    BsKeyLtIsStrictTotalOrder();
    forall g | g in groups[i + 1..] ensures !UpTo(k)(g.key) {
      var j :| i < j < |groups| && groups[j] == g;
      assert GroupLt(groups[i], groups[j]);
    }
    GroupsWhereNone(groups[i + 1..], UpTo(k));
  }

  /** Up to month `m` within account `a`. */
  function MonthsUpTo(a: string, m: Month): BsKey -> bool {
    (x: BsKey) => x.account == a && (x.month == m || MonthLt(x.month, m))
  }

  /** For an account booked under one Type only, the balance is the
      running total of its monthly sums in ascending month order. */
  lemma SingleTypeRunningBalance(bs: seq<DailyRow>, i: nat)
    requires i < |GroupBs(bs)|
    requires forall d :: d in bs && d.account == GroupBs(bs)[i].key.account ==> d.typ == GroupBs(bs)[i].key.typ
    ensures var g := CumSumByAccount(GroupBs(bs))[i];
      g.amount == RowsWhere(bs, MonthsUpTo(g.key.account, g.key.month))
  {
    var k := GroupBs(bs)[i].key;
    BsRunningBalance(bs, i);
    forall d | d in bs ensures UpTo(k)(KeyOfRow(d)) == MonthsUpTo(k.account, k.month)(KeyOfRow(d)) {
      if d.account == k.account {
        assert d.typ == k.typ;
        StrLtIrreflexive(k.typ);
        StrLtIrreflexive(k.account);
      }
    }
    RowsWhereAgree(bs, UpTo(k), MonthsUpTo(k.account, k.month));
  }

  // ---- The pivot (lines 198-203) ----

  /** A row of the pivot: its Type and Account, and one cell per month
      column, None (NaN) where the account has no group that month. */
  datatype BsPivotRow = BsPivotRow(typ: string, account: string, cells: seq<Option<int>>)

  datatype BsPivot = BsPivot(months: seq<Month>, rows: seq<BsPivotRow>)

  predicate BsWellFormed(p: BsPivot) {
    forall r :: r in p.rows ==> |r.cells| == |p.months|
  }

  datatype RowKey = RowKey(typ: string, account: string)

  function RowKeyOf(k: BsKey): RowKey {
    RowKey(k.typ, k.account)
  }

  /** The pivot's row order: Type, then Account. */
  predicate RowKeyLt(a: RowKey, b: RowKey) {
    StrLt(a.typ, b.typ) || (a.typ == b.typ && StrLt(a.account, b.account))
  }

  lemma RowKeyLtIsStrictTotalOrder()
    ensures IsStrictTotalOrder(RowKeyLt)
  {
    StrLtIsStrictTotalOrder();
  }

  function RowKeysOf(cum: seq<BsGroup>): (keys: seq<RowKey>)
    ensures forall k :: k in keys <==> exists g :: g in cum && RowKeyOf(g.key) == k
  {
    var keys := seq(|cum|, i requires 0 <= i < |cum| => RowKeyOf(cum[i].key));
    assert forall g :: g in cum ==> RowKeyOf(g.key) in keys by {
      forall g | g in cum ensures RowKeyOf(g.key) in keys {
        var i :| 0 <= i < |cum| && cum[i] == g;
        assert keys[i] == RowKeyOf(g.key);
      }
    }
    keys
  }

  function MonthsOfGroups(cum: seq<BsGroup>): (months: seq<Month>)
    ensures forall m :: m in months <==> exists g :: g in cum && g.key.month == m
  {
    var months := seq(|cum|, i requires 0 <= i < |cum| => cum[i].key.month);
    assert forall g :: g in cum ==> g.key.month in months by {
      forall g | g in cum ensures g.key.month in months {
        var i :| 0 <= i < |cum| && cum[i] == g;
        assert months[i] == g.key.month;
      }
    }
    months
  }

  /** The (Type, Account) rows of the pivot, in row order. */
  function PivotRowKeys(cum: seq<BsGroup>): (keys: seq<RowKey>)
    ensures StrictlySorted(keys, RowKeyLt)
    ensures forall k :: k in keys <==> exists g :: g in cum && RowKeyOf(g.key) == k
  {
    RowKeyLtIsStrictTotalOrder();
    SortDistinctSpec(RowKeysOf(cum), RowKeyLt);
    SortDistinct(RowKeysOf(cum), RowKeyLt)
  }

  /** The month columns of the pivot, ascending. */
  function BsMonths(cum: seq<BsGroup>): (months: seq<Month>)
    ensures StrictlySorted(months, MonthLt)
    ensures forall m :: m in months <==> exists g :: g in cum && g.key.month == m
  {
    MonthLtIsStrictTotalOrder();
    SortDistinctSpec(MonthsOfGroups(cum), MonthLt);
    SortDistinct(MonthsOfGroups(cum), MonthLt)
  }

  /** `aggfunc='sum'` without a fill value: the amount of the group of key
      `k`, None when there is none. */
  function BsCell(cum: seq<BsGroup>, k: BsKey): (cell: Option<int>)
    ensures cell.Some? <==> exists g :: g in cum && g.key == k
    ensures cell.Some? ==> BsGroup(k, cell.value) in cum
  {
    if cum == [] then None
    else if cum[0].key == k then Some(cum[0].amount)
    else BsCell(cum[1..], k)
  }

  function PivotRowOf(cum: seq<BsGroup>, months: seq<Month>, k: RowKey): (row: BsPivotRow)
    ensures |row.cells| == |months|
  {
    BsPivotRow(k.typ, k.account, seq(|months|, j requires 0 <= j < |months| => BsCell(cum, BsKey(k.account, k.typ, months[j]))))
  }

  /** Lines 198-203: one row per (Type, Account) present, in that order,
      one cell per month present, ascending. */
  function BsPivotOf(cum: seq<BsGroup>): (p: BsPivot)
    ensures BsWellFormed(p)
    ensures |p.rows| == |PivotRowKeys(cum)| && p.months == BsMonths(cum)
    ensures forall i :: 0 <= i < |p.rows| ==> p.rows[i] == PivotRowOf(cum, BsMonths(cum), PivotRowKeys(cum)[i])
  {
    var keys, months := PivotRowKeys(cum), BsMonths(cum);
    BsPivot(months, seq(|keys|, i requires 0 <= i < |keys| => PivotRowOf(cum, months, keys[i])))
  }

  /** A cell of the pivot holds the balance of the group of its row and
      month, and is None exactly when that group does not exist. */
  lemma BsPivotCell(cum: seq<BsGroup>, i: nat, j: nat)
    requires i < |BsPivotOf(cum).rows| && j < |BsPivotOf(cum).months|
    ensures var p := BsPivotOf(cum);
      var r := p.rows[i];
      var k := BsKey(r.account, r.typ, p.months[j]);
      && (r.cells[j].Some? <==> exists g :: g in cum && g.key == k)
      && (r.cells[j].Some? ==> BsGroup(k, r.cells[j].value) in cum)
  {
  }

  /** Every (Type, Account) of the balance-sheet groups has exactly one row. */
  lemma BsPivotRowsCover(cum: seq<BsGroup>)
    ensures forall g :: g in cum ==>
      exists i :: 0 <= i < |BsPivotOf(cum).rows| && BsPivotOf(cum).rows[i].typ == g.key.typ && BsPivotOf(cum).rows[i].account == g.key.account
    ensures forall i, j :: 0 <= i < j < |BsPivotOf(cum).rows| ==>
      RowKeyLt(RowKey(BsPivotOf(cum).rows[i].typ, BsPivotOf(cum).rows[i].account),
               RowKey(BsPivotOf(cum).rows[j].typ, BsPivotOf(cum).rows[j].account))
  {
    var p, keys := BsPivotOf(cum), PivotRowKeys(cum);
    forall g | g in cum ensures exists i :: 0 <= i < |p.rows| && p.rows[i].typ == g.key.typ && p.rows[i].account == g.key.account {
      assert RowKeyOf(g.key) in keys;
      var i :| 0 <= i < |keys| && keys[i] == RowKeyOf(g.key);
      assert p.rows[i] == PivotRowOf(cum, p.months, keys[i]);
    }
    forall i, j | 0 <= i < j < |p.rows|
      ensures RowKeyLt(RowKey(p.rows[i].typ, p.rows[i].account), RowKey(p.rows[j].typ, p.rows[j].account))
    {
      assert RowKey(p.rows[i].typ, p.rows[i].account) == keys[i];
      assert RowKey(p.rows[j].typ, p.rows[j].account) == keys[j];
    }
  }

  // ---- The forward fill (line 207) ----

  function FillFrom(cells: seq<Option<int>>, last: Option<int>): (filled: seq<Option<int>>)
    ensures |filled| == |cells|
  {
    if cells == [] then []
    else
      var v := if cells[0].Some? then cells[0] else last;
      [v] + FillFrom(cells[1..], v)
  }

  /** `fillna(method='ffill', axis=1)` on one row, scanning left to right. */
  function FFill(cells: seq<Option<int>>): (filled: seq<Option<int>>)
    ensures |filled| == |cells|
  {
    FillFrom(cells, None)
  }

  /** The last present cell of `cells`, looking back from its end. */
  function Latest(cells: seq<Option<int>>): Option<int> {
    if cells == [] then None
    else if cells[|cells| - 1].Some? then cells[|cells| - 1]
    else Latest(cells[..|cells| - 1])
  }

  lemma {:induction false} FillFromIsLatest(cells: seq<Option<int>>, prefix: seq<Option<int>>, j: nat)
    requires j < |cells|
    ensures FillFrom(cells, Latest(prefix))[j] == Latest(prefix + cells[..j + 1])
  {
    var prefix' := prefix + [cells[0]];
    assert prefix'[..|prefix'| - 1] == prefix;
    assert Latest(prefix') == if cells[0].Some? then cells[0] else Latest(prefix);
    if j == 0 {
      assert prefix + cells[..1] == prefix';
    } else {
      FillFromIsLatest(cells[1..], prefix', j - 1);
      assert FillFrom(cells, Latest(prefix))[j] == FillFrom(cells[1..], Latest(prefix'))[j - 1];
      assert prefix' + cells[1..][..j] == prefix + cells[..j + 1];
    }
  }

  /** The filled cell at `j` is the last present cell up to `j`. */
  lemma FFillIsLatest(cells: seq<Option<int>>)
    ensures forall j :: 0 <= j < |cells| ==> FFill(cells)[j] == Latest(cells[..j + 1])
  {
    forall j | 0 <= j < |cells| ensures FFill(cells)[j] == Latest(cells[..j + 1]) {
      FFillAt(cells, j);
    }
  }

  lemma {:induction false} LatestNone(cells: seq<Option<int>>)
    ensures Latest(cells) == None <==> forall k :: 0 <= k < |cells| ==> cells[k] == None
  {
    if cells != [] && cells[|cells| - 1].None? {
      LatestNone(cells[..|cells| - 1]);
    }
  }

  lemma {:induction false} LatestSome(cells: seq<Option<int>>)
    requires Latest(cells).Some?
    ensures exists k :: 0 <= k < |cells| && cells[k] == Latest(cells) && forall k' :: k < k' < |cells| ==> cells[k'] == None
  {
    var n := |cells| - 1;
    if cells[n].None? {
      LatestSome(cells[..n]);
      var k :| 0 <= k < n && cells[..n][k] == Latest(cells[..n]) && forall k' :: k < k' < n ==> cells[..n][k'] == None;
      assert cells[k] == cells[..n][k] == Latest(cells);
      forall k' | k < k' < |cells| ensures cells[k'] == None {
        if k' < n {
          assert cells[k'] == cells[..n][k'];
        }
      }
    } else {
      assert cells[n] == Latest(cells);
    }
  }

  /** Forward fill keeps every present cell, leaves a cell empty exactly
      when no cell up to it is present, and otherwise fills it with the
      nearest present cell before it. */
  lemma FFillSpec(cells: seq<Option<int>>, j: nat)
    requires j < |cells|
    ensures cells[j].Some? ==> FFill(cells)[j] == cells[j]
    ensures FFill(cells)[j] == None <==> forall k :: 0 <= k <= j ==> cells[k] == None
    ensures FFill(cells)[j].Some? ==>
      exists k :: 0 <= k <= j && cells[k] == FFill(cells)[j] && forall k' :: k < k' <= j ==> cells[k'] == None
  {
    FFillAt(cells, j);
    assert cells[..j + 1][j] == cells[j];
    FFillNone(cells, j);
    if FFill(cells)[j].Some? {
      FFillSome(cells, j);
    }
  }

  lemma FFillAt(cells: seq<Option<int>>, j: nat)
    requires j < |cells|
    ensures FFill(cells)[j] == Latest(cells[..j + 1])
  {
    FillFromIsLatest(cells, [], j);
    assert [] + cells[..j + 1] == cells[..j + 1];
  }

  lemma FFillNone(cells: seq<Option<int>>, j: nat)
    requires j < |cells|
    ensures FFill(cells)[j] == None <==> forall k :: 0 <= k <= j ==> cells[k] == None
  {
    FFillAt(cells, j);
    LatestNone(cells[..j + 1]);
  }

  lemma FFillSome(cells: seq<Option<int>>, j: nat)
    requires j < |cells| && FFill(cells)[j].Some?
    ensures exists k :: 0 <= k <= j && cells[k] == FFill(cells)[j] && forall k' :: k < k' <= j ==> cells[k'] == None
  {
    FFillAt(cells, j);
    var prefix := cells[..j + 1];
    LatestSome(prefix);
    var k :| 0 <= k < |prefix| && prefix[k] == Latest(prefix) && forall k' :: k < k' < |prefix| ==> prefix[k'] == None;
    forall k' | k < k' <= j ensures cells[k'] == None {
      assert prefix[k'] == None;
    }
    assert cells[k] == FFill(cells)[j];
  }

  function RowOf(a: array2<Option<int>>, r: nat): (row: seq<Option<int>>)
    reads a
    requires r < a.Length0
    ensures |row| == a.Length1
    ensures forall j :: 0 <= j < a.Length1 ==> row[j] == a[r, j]
  {
    seq(a.Length1, j requires 0 <= j < a.Length1 reads a => a[r, j])
  }

  /** Line 207: every row of the month cells forward-filled in place. */
  method FillForwardInPlace(a: array2<Option<int>>)
    modifies a
    ensures forall r :: 0 <= r < a.Length0 ==> RowOf(a, r) == FFill(old(RowOf(a, r)))
  {
    for r := 0 to a.Length0
      invariant forall q :: 0 <= q < r ==> RowOf(a, q) == FFill(old(RowOf(a, q)))
      invariant forall q :: r <= q < a.Length0 ==> RowOf(a, q) == old(RowOf(a, q))
    {
      FillRowInPlace(a, r);
    }
  }

  /** One row of line 207: a scan left to right carrying the last present
      cell into the empty ones. The other rows are left as they are. */
  method FillRowInPlace(a: array2<Option<int>>, r: nat)
    requires r < a.Length0
    modifies a
    ensures RowOf(a, r) == FFill(old(RowOf(a, r)))
    ensures forall q :: 0 <= q < a.Length0 && q != r ==> RowOf(a, q) == old(RowOf(a, q))
  {
    ghost var row := RowOf(a, r);
    var last: Option<int> := None;
    for j := 0 to a.Length1
      invariant forall q, k :: 0 <= q < a.Length0 && q != r && 0 <= k < a.Length1 ==> a[q, k] == old(a[q, k])
      invariant forall k :: 0 <= k < j ==> a[r, k] == Latest(row[..k + 1])
      invariant forall k :: j <= k < a.Length1 ==> a[r, k] == row[k]
      invariant last == Latest(row[..j])
    {
      assert row[..j + 1][..j] == row[..j];
      if a[r, j].None? {
        a[r, j] := last;
      } else {
        last := a[r, j];
      }
    }
    FFillIsLatest(row);
    assert RowOf(a, r) == FFill(row);
    forall q | 0 <= q < a.Length0 && q != r ensures RowOf(a, q) == old(RowOf(a, q)) {
      assert RowOf(a, q) == old(RowOf(a, q));
    }
  }

  /** The pivot after line 207: every row forward-filled across the months. */
  function FilledPivot(p: BsPivot): (filled: BsPivot)
    requires BsWellFormed(p)
    ensures BsWellFormed(filled)
  {
    BsPivot(p.months, seq(|p.rows|, i requires 0 <= i < |p.rows| =>
      BsPivotRow(p.rows[i].typ, p.rows[i].account, FFill(p.rows[i].cells))))
  }

  /** A cell of the filled pivot is empty exactly when the account has no
      group in that month or any earlier one, and otherwise holds the
      balance of one of those groups, the latest present in the row. */
  lemma FilledCellIsLastBalance(cum: seq<BsGroup>, i: nat, j: nat)
    requires i < |BsPivotOf(cum).rows| && j < |BsPivotOf(cum).months|
    ensures
      var p := BsPivotOf(cum);
      var r := p.rows[i];
      var filled := FilledPivot(p).rows[i].cells;
      && j < |filled|
      && (filled[j] == None <==> forall k :: 0 <= k <= j ==> r.cells[k] == None)
      && (forall k :: 0 <= k < |p.months| ==>
            (r.cells[k].Some? <==> exists g :: g in cum && g.key == BsKey(r.account, r.typ, p.months[k])))
      && (filled[j].Some? ==>
            exists k :: 0 <= k <= j && BsGroup(BsKey(r.account, r.typ, p.months[k]), filled[j].value) in cum
              && forall k' :: k < k' <= j ==> r.cells[k'] == None)
  {
    var p := BsPivotOf(cum);
    var r := p.rows[i];
    FFillSpec(r.cells, j);
    forall k | 0 <= k < |p.months|
      ensures r.cells[k].Some? <==> exists g :: g in cum && g.key == BsKey(r.account, r.typ, p.months[k])
    {
      BsPivotCell(cum, i, k);
    }
    if FFill(r.cells)[j].Some? {
      var k :| 0 <= k <= j && r.cells[k] == FFill(r.cells)[j] && forall k' :: k < k' <= j ==> r.cells[k'] == None;
      BsPivotCell(cum, i, k);
    }
  }

  // ---- Sections, totals and the statement (lines 210-233) ----

  /** A line of `bs_final`: the section key of the concat, the row label and
      the month cells that hold a value. */
  datatype BsLine = BsLine(section: string, name: string, cells: map<Month, int>)

  datatype BalanceReport = BalanceReport(columns: seq<Month>, lines: seq<BsLine>)

  /** The months of a row that hold a value, with that value. */
  function CellMap(months: seq<Month>, cells: seq<Option<int>>): map<Month, int> {
    map m | m in months && IndexOf(months, m) < |cells| && cells[IndexOf(months, m)].Some? :: cells[IndexOf(months, m)].value
  }

  lemma CellMapAt(months: seq<Month>, cells: seq<Option<int>>, j: nat)
    requires |cells| == |months| && Distinct(months) && j < |months|
    ensures months[j] in CellMap(months, cells) <==> cells[j].Some?
    ensures cells[j].Some? ==> CellMap(months, cells)[months[j]] == cells[j].value
  {
    assert IndexOf(months, months[j]) == j;
  }

  /** Lines 210-220: the rows whose Type is exactly `typ`, in pivot order. */
  function SectionRows(rows: seq<BsPivotRow>, typ: string): (selected: seq<BsPivotRow>)
    ensures forall r :: r in selected <==> r in rows && r.typ == typ
  {
    if rows == [] then []
    else if rows[0].typ == typ then [rows[0]] + SectionRows(rows[1..], typ)
    else SectionRows(rows[1..], typ)
  }

  /** The rows of a section under the section key, named by their Account. */
  function SectionLines(months: seq<Month>, section: string, rows: seq<BsPivotRow>): (lines: seq<BsLine>)
    ensures |lines| == |rows|
    ensures forall i :: 0 <= i < |rows| ==> lines[i] == BsLine(section, rows[i].account, CellMap(months, rows[i].cells))
  {
    seq(|rows|, i requires 0 <= i < |rows| => BsLine(section, rows[i].account, CellMap(months, rows[i].cells)))
  }

  function LineCells(lines: seq<BsLine>): (cells: seq<map<Month, int>>)
    ensures |cells| == |lines|
    ensures forall i :: 0 <= i < |lines| ==> cells[i] == lines[i].cells
  {
    seq(|lines|, i requires 0 <= i < |lines| => lines[i].cells)
  }

  /** `make_total_row` over the section's month columns: the column sums,
      NaN counted as 0, keyed ''. */
  function TotalLine(name: string, items: seq<BsLine>, months: seq<Month>): BsLine {
    BsLine("", name, SparseTotalRow(LineCells(items), months))
  }

  function RunningFrom(xs: seq<int>, acc: int): (ys: seq<int>)
    ensures |ys| == |xs|
  {
    if xs == [] then [] else [acc + xs[0]] + RunningFrom(xs[1..], acc + xs[0])
  }

  lemma {:induction false} RunningFromAt(xs: seq<int>, acc: int, j: nat)
    requires j < |xs|
    ensures RunningFrom(xs, acc)[j] == acc + Sum(xs[..j + 1])
  {
    assert xs[..j + 1][1..] == xs[1..][..j];
    if j > 0 {
      RunningFromAt(xs[1..], acc + xs[0], j - 1);
    } else {
      assert Sum(xs[..1][1..]) == 0;
    }
  }

  /** `net_income.cumsum(axis=1)`: the net income row as running totals over
      the income-statement months. */
  function CumulativeNetIncome(icMonths: seq<Month>, netIncome: seq<int>): map<Month, int>
    requires |netIncome| == |icMonths|
  {
    var running := RunningFrom(netIncome, 0);
    map m | m in icMonths :: running[IndexOf(icMonths, m)]
  }

  /** The cumulative net income of a month is the net income of every month
      up to and including it. */
  lemma CumulativeNetIncomeAt(icMonths: seq<Month>, netIncome: seq<int>, j: nat)
    requires |netIncome| == |icMonths| && Distinct(icMonths) && j < |icMonths|
    ensures icMonths[j] in CumulativeNetIncome(icMonths, netIncome)
    ensures CumulativeNetIncome(icMonths, netIncome)[icMonths[j]] == Sum(netIncome[..j + 1])
  {
    assert IndexOf(icMonths, icMonths[j]) == j;
    RunningFromAt(netIncome, 0, j);
  }

  /** The Equity section: the cumulative net income row first, then the
      Equity rows (line 221). */
  function EquityLines(p: BsPivot, icMonths: seq<Month>, netIncome: seq<int>): (lines: seq<BsLine>)
    requires |netIncome| == |icMonths|
    ensures |lines| == |SectionRows(p.rows, "Equity")| + 1
  {
    [BsLine("Equities", "Net Income", CumulativeNetIncome(icMonths, netIncome))]
      + SectionLines(p.months, "Equities", SectionRows(p.rows, "Equity"))
  }

  /** The concat of lines 224-231: each section followed by its total. */
  function AssembleBs(months: seq<Month>, assets: seq<BsLine>, liabilities: seq<BsLine>, equities: seq<BsLine>): (lines: seq<BsLine>)
    ensures |lines| == |assets| + |liabilities| + |equities| + 3
  {
    assets + [TotalLine("Total Assets", assets, months)]
      + liabilities + [TotalLine("Total Liabilities", liabilities, months)]
      + equities + [TotalLine("Total Equity", equities, months)]
  }

  /** Lines 224-232 on the filled pivot: Assets, Total Assets, Liabilities,
      Total Liabilities, Equities, Total Equity, with the concat keys
      'Assets', '', 'Liabilities', '', 'Equities', ''. The columns are the
      pivot's months followed by the income-statement months it lacks. */
  function BsStatement(p: BsPivot, icMonths: seq<Month>, netIncome: seq<int>): (report: BalanceReport)
    requires |netIncome| == |icMonths|
    ensures |report.lines| ==
      |SectionRows(p.rows, "Asset")| + |SectionRows(p.rows, "Liability")| + |SectionRows(p.rows, "Equity")| + 4
  {
    BalanceReport(Union(p.months, icMonths),
      AssembleBs(p.months,
        SectionLines(p.months, "Assets", SectionRows(p.rows, "Asset")),
        SectionLines(p.months, "Liabilities", SectionRows(p.rows, "Liability")),
        EquityLines(p, icMonths, netIncome)))
  }

  /** `clean_bs` on the balances of line 85. */
  function BsReport(cum: seq<BsGroup>, icMonths: seq<Month>, netIncome: seq<int>): BalanceReport
    requires |netIncome| == |icMonths|
  {
    BsStatement(FilledPivot(BsPivotOf(cum)), icMonths, netIncome)
  }

  /** `clean_bs`, with the forward fill done in place on the pivot's cells. */
  method CleanBs(cum: seq<BsGroup>, icMonths: seq<Month>, netIncome: seq<int>) returns (report: BalanceReport)
    requires |netIncome| == |icMonths|
    ensures report == BsReport(cum, icMonths, netIncome)
  {
    var p := BsPivotOf(cum);
    var a := new Option<int>[|p.rows|, |p.months|]((i, j) requires 0 <= i < |p.rows| && 0 <= j < |p.months| => p.rows[i].cells[j]);
    forall i | 0 <= i < |p.rows| ensures RowOf(a, i) == p.rows[i].cells {
    }
    FillForwardInPlace(a);
    var rows := seq(|p.rows|, i requires 0 <= i < |p.rows| reads a =>
      BsPivotRow(p.rows[i].typ, p.rows[i].account, RowOf(a, i)));
    assert BsPivot(p.months, rows) == FilledPivot(p);
    report := BsStatement(BsPivot(p.months, rows), icMonths, netIncome);
  }

  // ---- The layout of bs_final ----

  lemma SixParts<T>(a: seq<T>, x: T, b: seq<T>, y: T, c: seq<T>, z: T)
    ensures var s := a + [x] + b + [y] + c + [z];
      && |s| == |a| + |b| + |c| + 3
      && s[..|a|] == a && s[|a|] == x
      && s[|a| + 1..|a| + |b| + 1] == b && s[|a| + |b| + 1] == y
      && s[|a| + |b| + 2..|a| + |b| + |c| + 2] == c && s[|a| + |b| + |c| + 2] == z
  {
    var s := a + [x] + b + [y] + c + [z];
    assert s == a + ([x] + b + [y] + c + [z]);
    assert s[|a| + 1..] == b + ([y] + c + [z]);
    assert s[|a| + |b| + 2..] == c + [z];
  }

  /** The six parts of the statement, where they sit. */
  lemma BsLayout(p: BsPivot, icMonths: seq<Month>, netIncome: seq<int>)
    requires |netIncome| == |icMonths|
    ensures
      var lines := BsStatement(p, icMonths, netIncome).lines;
      var assets := SectionLines(p.months, "Assets", SectionRows(p.rows, "Asset"));
      var liabilities := SectionLines(p.months, "Liabilities", SectionRows(p.rows, "Liability"));
      var equities := EquityLines(p, icMonths, netIncome);
      var na, nl, nq := |assets|, |liabilities|, |equities|;
      && |lines| == na + nl + nq + 3
      && lines[..na] == assets && lines[na] == TotalLine("Total Assets", assets, p.months)
      && lines[na + 1..na + nl + 1] == liabilities && lines[na + nl + 1] == TotalLine("Total Liabilities", liabilities, p.months)
      && lines[na + nl + 2..na + nl + nq + 2] == equities && lines[na + nl + nq + 2] == TotalLine("Total Equity", equities, p.months)
  {
    AssembledParts(p.months, SectionLines(p.months, "Assets", SectionRows(p.rows, "Asset")),
      SectionLines(p.months, "Liabilities", SectionRows(p.rows, "Liability")), EquityLines(p, icMonths, netIncome));
  }

  lemma AssembledParts(months: seq<Month>, assets: seq<BsLine>, liabilities: seq<BsLine>, equities: seq<BsLine>)
    ensures var lines, na, nl, nq := AssembleBs(months, assets, liabilities, equities), |assets|, |liabilities|, |equities|;
      && lines[..na] == assets && lines[na] == TotalLine("Total Assets", assets, months)
      && lines[na + 1..na + nl + 1] == liabilities && lines[na + nl + 1] == TotalLine("Total Liabilities", liabilities, months)
      && lines[na + nl + 2..na + nl + nq + 2] == equities && lines[na + nl + nq + 2] == TotalLine("Total Equity", equities, months)
  {
    SixParts(assets, TotalLine("Total Assets", assets, months),
      liabilities, TotalLine("Total Liabilities", liabilities, months),
      equities, TotalLine("Total Equity", equities, months));
  }

  lemma AssembledAsset(months: seq<Month>, assets: seq<BsLine>, liabilities: seq<BsLine>, equities: seq<BsLine>, i: nat)
    requires i < |assets|
    ensures AssembleBs(months, assets, liabilities, equities)[i] == assets[i]
  {
    AssembledParts(months, assets, liabilities, equities);
    assert AssembleBs(months, assets, liabilities, equities)[..|assets|][i] == assets[i];
  }

  lemma AssembledLiability(months: seq<Month>, assets: seq<BsLine>, liabilities: seq<BsLine>, equities: seq<BsLine>, i: nat)
    requires i < |liabilities|
    ensures AssembleBs(months, assets, liabilities, equities)[|assets| + 1 + i] == liabilities[i]
  {
    AssembledParts(months, assets, liabilities, equities);
    assert AssembleBs(months, assets, liabilities, equities)[|assets| + 1..|assets| + |liabilities| + 1][i] == liabilities[i];
  }

  lemma AssembledEquity(months: seq<Month>, assets: seq<BsLine>, liabilities: seq<BsLine>, equities: seq<BsLine>, i: nat)
    requires i < |equities|
    ensures AssembleBs(months, assets, liabilities, equities)[|assets| + |liabilities| + 2 + i] == equities[i]
  {
    AssembledParts(months, assets, liabilities, equities);
    assert AssembleBs(months, assets, liabilities, equities)[|assets| + |liabilities| + 2..|assets| + |liabilities| + |equities| + 2][i] == equities[i];
  }

  /** A total line has a cell for each month of the pivot and each holds
      the column sum of the section lines above it, NaN counted as 0. */
  ghost predicate TotalsSection(total: BsLine, name: string, section: seq<BsLine>, months: seq<Month>) {
    && total.section == "" && total.name == name
    && (forall m :: m in total.cells <==> m in months)
    && (forall m :: m in months ==> total.cells[m] == SparseColumnSum(LineCells(section), m))
  }

  lemma TotalLineTotals(name: string, items: seq<BsLine>, months: seq<Month>)
    ensures TotalsSection(TotalLine(name, items, months), name, items, months)
  {
  }

  /** Total Assets adds up the asset lines. */
  lemma BsTotalAssets(p: BsPivot, icMonths: seq<Month>, netIncome: seq<int>)
    requires |netIncome| == |icMonths|
    ensures
      var lines, na := BsStatement(p, icMonths, netIncome).lines, |SectionRows(p.rows, "Asset")|;
      && na < |lines|
      && TotalsSection(lines[na], "Total Assets", SectionLines(p.months, "Assets", SectionRows(p.rows, "Asset")), p.months)
  {
    BsLayout(p, icMonths, netIncome);
    TotalLineTotals("Total Assets", SectionLines(p.months, "Assets", SectionRows(p.rows, "Asset")), p.months);
  }

  /** Total Liabilities adds up the liability lines. */
  lemma BsTotalLiabilities(p: BsPivot, icMonths: seq<Month>, netIncome: seq<int>)
    requires |netIncome| == |icMonths|
    ensures
      var lines := BsStatement(p, icMonths, netIncome).lines;
      var na, nl := |SectionRows(p.rows, "Asset")|, |SectionRows(p.rows, "Liability")|;
      && na + nl + 1 < |lines|
      && TotalsSection(lines[na + nl + 1], "Total Liabilities",
           SectionLines(p.months, "Liabilities", SectionRows(p.rows, "Liability")), p.months)
  {
    BsLayout(p, icMonths, netIncome);
    TotalLineTotals("Total Liabilities", SectionLines(p.months, "Liabilities", SectionRows(p.rows, "Liability")), p.months);
  }

  /** Total Equity adds up the equity lines, the cumulative net income line
      included; it is the last line. */
  lemma BsTotalEquity(p: BsPivot, icMonths: seq<Month>, netIncome: seq<int>)
    requires |netIncome| == |icMonths|
    ensures
      var lines := BsStatement(p, icMonths, netIncome).lines;
      && |lines| > 0
      && TotalsSection(lines[|lines| - 1], "Total Equity", EquityLines(p, icMonths, netIncome), p.months)
  {
    BsLayout(p, icMonths, netIncome);
    TotalLineTotals("Total Equity", EquityLines(p, icMonths, netIncome), p.months);
  }

  /** The cumulative net income counts in Total Equity: each month of the
      pivot adds the net income up to that month (0 when the income
      statement has no such month) to the equity rows. */
  lemma TotalEquityIncludesNetIncome(p: BsPivot, icMonths: seq<Month>, netIncome: seq<int>, m: Month)
    requires |netIncome| == |icMonths| && m in p.months
    ensures
      var lines := BsStatement(p, icMonths, netIncome).lines;
      var equityRows := SectionLines(p.months, "Equities", SectionRows(p.rows, "Equity"));
      && |lines| > 0 && m in lines[|lines| - 1].cells
      && lines[|lines| - 1].cells[m] == CellOr0(CumulativeNetIncome(icMonths, netIncome), m) + SparseColumnSum(LineCells(equityRows), m)
  {
    BsTotalEquity(p, icMonths, netIncome);
    EquityColumnSum(p, icMonths, netIncome, m);
  }

  lemma EquityColumnSum(p: BsPivot, icMonths: seq<Month>, netIncome: seq<int>, m: Month)
    requires |netIncome| == |icMonths|
    ensures SparseColumnSum(LineCells(EquityLines(p, icMonths, netIncome)), m) ==
      CellOr0(CumulativeNetIncome(icMonths, netIncome), m)
      + SparseColumnSum(LineCells(SectionLines(p.months, "Equities", SectionRows(p.rows, "Equity"))), m)
  {
    var equityRows := SectionLines(p.months, "Equities", SectionRows(p.rows, "Equity"));
    var niLine := BsLine("Equities", "Net Income", CumulativeNetIncome(icMonths, netIncome));
    assert LineCells([niLine] + equityRows) == [niLine.cells] + LineCells(equityRows);
    SparseColumnSumAppend([niLine.cells], LineCells(equityRows), m);
    assert SparseColumnSum([niLine.cells], m) == CellOr0(niLine.cells, m) by {
      assert [niLine.cells][1..] == [];
    }
  }

  /** Line `i` of the Asset section. */
  lemma BsAssetLine(p: BsPivot, icMonths: seq<Month>, netIncome: seq<int>, i: nat)
    requires |netIncome| == |icMonths| && i < |SectionRows(p.rows, "Asset")|
    ensures
      var lines, asset := BsStatement(p, icMonths, netIncome).lines, SectionRows(p.rows, "Asset")[i];
      && i < |lines|
      && lines[i] == BsLine("Assets", asset.account, CellMap(p.months, asset.cells))
  {
    AssembledAsset(p.months, SectionLines(p.months, "Assets", SectionRows(p.rows, "Asset")),
      SectionLines(p.months, "Liabilities", SectionRows(p.rows, "Liability")), EquityLines(p, icMonths, netIncome), i);
  }

  /** The first lines are the rows of Type exactly "Asset", in pivot order,
      under 'Assets', named by their Account and holding their cells. */
  lemma BsAssetLines(p: BsPivot, icMonths: seq<Month>, netIncome: seq<int>)
    requires |netIncome| == |icMonths|
    ensures
      var lines, assets := BsStatement(p, icMonths, netIncome).lines, SectionRows(p.rows, "Asset");
      && |assets| < |lines|
      && forall i :: 0 <= i < |assets| ==> lines[i] == BsLine("Assets", assets[i].account, CellMap(p.months, assets[i].cells))
  {
    var assets := SectionRows(p.rows, "Asset");
    forall i | 0 <= i < |assets|
      ensures BsStatement(p, icMonths, netIncome).lines[i] == BsLine("Assets", assets[i].account, CellMap(p.months, assets[i].cells))
    {
      BsAssetLine(p, icMonths, netIncome, i);
    }
  }

  /** Line `i` of the Liability rows: after Total Assets come the rows of
      Type exactly "Liability", in pivot order, under 'Liabilities'. */
  lemma BsLiabilityLine(p: BsPivot, icMonths: seq<Month>, netIncome: seq<int>, i: nat)
    requires |netIncome| == |icMonths| && i < |SectionRows(p.rows, "Liability")|
    ensures
      var lines, liability := BsStatement(p, icMonths, netIncome).lines, SectionRows(p.rows, "Liability")[i];
      var k := |SectionRows(p.rows, "Asset")| + 1;
      && k + i < |lines|
      && lines[k + i] == BsLine("Liabilities", liability.account, CellMap(p.months, liability.cells))
  {
    AssembledLiability(p.months, SectionLines(p.months, "Assets", SectionRows(p.rows, "Asset")),
      SectionLines(p.months, "Liabilities", SectionRows(p.rows, "Liability")), EquityLines(p, icMonths, netIncome), i);
  }

  /** After Total Liabilities comes the cumulative net income line, at the
      head of the Equity section. */
  lemma BsNetIncomeLine(p: BsPivot, icMonths: seq<Month>, netIncome: seq<int>)
    requires |netIncome| == |icMonths|
    ensures
      var lines := BsStatement(p, icMonths, netIncome).lines;
      var k := |SectionRows(p.rows, "Asset")| + |SectionRows(p.rows, "Liability")| + 2;
      && k < |lines|
      && lines[k] == BsLine("Equities", "Net Income", CumulativeNetIncome(icMonths, netIncome))
  {
    BsLayout(p, icMonths, netIncome);
    var lines := BsStatement(p, icMonths, netIncome).lines;
    var k := |SectionRows(p.rows, "Asset")| + |SectionRows(p.rows, "Liability")| + 2;
    var shown := EquityLines(p, icMonths, netIncome);
    assert lines[k] == lines[k..k + |shown|][0];
  }

  /** Line `i` of the Equity rows: after the net income line come the rows
      of Type exactly "Equity", in pivot order, under 'Equities'. */
  lemma BsEquityLine(p: BsPivot, icMonths: seq<Month>, netIncome: seq<int>, i: nat)
    requires |netIncome| == |icMonths| && i < |SectionRows(p.rows, "Equity")|
    ensures
      var lines, equity := BsStatement(p, icMonths, netIncome).lines, SectionRows(p.rows, "Equity")[i];
      var k := |SectionRows(p.rows, "Asset")| + |SectionRows(p.rows, "Liability")| + 3;
      && k + i < |lines|
      && lines[k + i] == BsLine("Equities", equity.account, CellMap(p.months, equity.cells))
  {
    EquityLinesAfterNetIncome(p, icMonths, netIncome, i);
    AssembledEquity(p.months, SectionLines(p.months, "Assets", SectionRows(p.rows, "Asset")),
      SectionLines(p.months, "Liabilities", SectionRows(p.rows, "Liability")), EquityLines(p, icMonths, netIncome), 1 + i);
  }

  lemma EquityLinesAfterNetIncome(p: BsPivot, icMonths: seq<Month>, netIncome: seq<int>, i: nat)
    requires |netIncome| == |icMonths| && i < |SectionRows(p.rows, "Equity")|
    ensures EquityLines(p, icMonths, netIncome)[1 + i] == SectionLines(p.months, "Equities", SectionRows(p.rows, "Equity"))[i]
  {
  }

  /** The columns of the statement: the pivot's months, then the
      income-statement months the pivot lacks, each once and in their own
      order, so ascending when they ascend. */
  lemma BsColumns(p: BsPivot, icMonths: seq<Month>, netIncome: seq<int>)
    requires |netIncome| == |icMonths|
    ensures var columns := BsStatement(p, icMonths, netIncome).columns;
      && columns[..|p.months|] == p.months
      && (forall m :: m in columns <==> m in p.months || m in icMonths)
      && AppendsNew(p.months, icMonths, columns)
      && (Distinct(p.months) ==> Distinct(columns))
      && (StrictlySorted(icMonths, MonthLt) ==> StrictlySorted(columns[|p.months|..], MonthLt))
  {
    UnionAppends(p.months, icMonths);
    if Distinct(p.months) {
      UnionDistinct(p.months, icMonths);
    }
    if StrictlySorted(icMonths, MonthLt) {
      UnionTailSorted(p.months, icMonths, MonthLt);
    }
  }

  /** The columns of `clean_bs`: the balance-sheet months ascending, then the
      income-statement months they lack, ascending, and no month twice. */
  lemma BsReportColumns(cum: seq<BsGroup>, icMonths: seq<Month>, netIncome: seq<int>)
    requires |netIncome| == |icMonths| && StrictlySorted(icMonths, MonthLt)
    ensures var columns, months := BsReport(cum, icMonths, netIncome).columns, BsMonths(cum);
      && columns[..|months|] == months
      && StrictlySorted(columns[|months|..], MonthLt)
      && (forall i :: |months| <= i < |columns| ==> columns[i] in icMonths && columns[i] !in months)
      && Distinct(columns)
  {
    var p := FilledPivot(BsPivotOf(cum));
    MonthLtIsStrictTotalOrder();
    SortedIsDistinct(p.months, MonthLt);
    BsColumns(p, icMonths, netIncome);
  }

}
