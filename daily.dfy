/** The daily aggregation of `clean_df` (DataScrub.py:78-80): the signed
  amounts are summed per (day, Type, Account), a `year_month` key is added,
  and the rows are sorted by Account, year_month and Date.

  pandas' groupby drops every row whose Date is NaT or whose Type or
  Account is NaN. After `sort_values(['Account', 'year_month', 'Date'])` two
  rows can still tie only when they differ in Type; the multi-column sort is
  stable, so they keep the groupby order, which is by Type.
*/
module Daily {
  import opened Order
  import opened Ledger
  import opened Signs

  datatype DailyKey = DailyKey(date: Date, typ: string, account: string)

  /** One row of `daily`: Date, Type, Account, gaap_amount, year_month. */
  datatype DailyRow = DailyRow(date: Date, typ: string, account: string, amount: int, yearMonth: Month)

  /** The group a ledger row falls in; None when groupby drops it. */
  function KeyOf(r: LedgerRow): Option<DailyKey> {
    if r.date.Some? && r.typ.Some? && r.account.Some? then
      Some(DailyKey(r.date.value, r.typ.value, r.account.value))
    else None
  }

  function KeyOfDaily(d: DailyRow): DailyKey {
    DailyKey(d.date, d.typ, d.account)
  }

  /** Account, then year_month, then Date, then Type. */
  predicate DailyKeyLt(a: DailyKey, b: DailyKey) {
    || StrLt(a.account, b.account)
    || (a.account == b.account && MonthLt(MonthOf(a.date), MonthOf(b.date)))
    || (a.account == b.account && MonthOf(a.date) == MonthOf(b.date) && DateLt(a.date, b.date))
    || (a.account == b.account && a.date == b.date && StrLt(a.typ, b.typ))
  }

  predicate DailyLt(a: DailyRow, b: DailyRow) {
    DailyKeyLt(KeyOfDaily(a), KeyOfDaily(b))
  }

  lemma DailyKeyLtIsStrictTotalOrder()
    ensures IsStrictTotalOrder(DailyKeyLt)
  {
    StrLtIsStrictTotalOrder();
    MonthLtIsStrictTotalOrder();
    DateLtIsStrictTotalOrder();
    forall a, b, c | DailyKeyLt(a, b) && DailyKeyLt(b, c) ensures DailyKeyLt(a, c) {
      if StrLt(a.account, b.account) || StrLt(b.account, c.account) {
        if a.account == b.account || b.account == c.account {
        } else {
          assert StrLt(a.account, c.account);
        }
      }
    }
  }

  /** The keys of the rows that have one, in row order. */
  function GroupKeys(rows: seq<LedgerRow>): (keys: seq<DailyKey>)
    ensures forall k :: k in keys <==> exists r :: r in rows && KeyOf(r) == Some(k)
  {
    if rows == [] then []
    else
      var rest := GroupKeys(rows[1..]);
      assert forall r :: r in rows <==> r == rows[0] || r in rows[1..];
      match KeyOf(rows[0])
      case Some(k) => [k] + rest
      case None => rest
  }

  /** What ledger row `r` adds to the group `k`. */
  function Contribution(r: LedgerRow, k: DailyKey): int {
    if KeyOf(r) == Some(k) then AdjCreditsDebit(r) else 0
  }

  /** The signed amounts of all rows of group `k`. */
  function DailySum(rows: seq<LedgerRow>, k: DailyKey): int {
    if rows == [] then 0 else Contribution(rows[0], k) + DailySum(rows[1..], k)
  }

  function RowFor(rows: seq<LedgerRow>, k: DailyKey): DailyRow {
    DailyRow(k.date, k.typ, k.account, DailySum(rows, k), MonthOf(k.date))
  }

  /** Lines 78-80: one row per group, sorted, holding the group's sum. */
  function Aggregate(rows: seq<LedgerRow>): (daily: seq<DailyRow>)
    ensures StrictlySorted(daily, DailyLt)
    ensures forall d :: d in daily ==> d.amount == DailySum(rows, KeyOfDaily(d)) && d.yearMonth == MonthOf(d.date)
    ensures forall k :: (exists d :: d in daily && KeyOfDaily(d) == k) <==> (exists r :: r in rows && KeyOf(r) == Some(k))
  {
    var keys := SortDistinct(GroupKeys(rows), DailyKeyLt);
    DailyKeyLtIsStrictTotalOrder();
    SortDistinctSpec(GroupKeys(rows), DailyKeyLt);
    var daily := seq(|keys|, i requires 0 <= i < |keys| => RowFor(rows, keys[i]));
    assert forall i :: 0 <= i < |keys| ==> KeyOfDaily(daily[i]) == keys[i];
    assert forall k :: k in keys <==> exists d :: d in daily && KeyOfDaily(d) == k by {
      forall k | k in keys ensures exists d :: d in daily && KeyOfDaily(d) == k {
        var i :| 0 <= i < |keys| && keys[i] == k;
        assert daily[i] in daily;
      }
    }
    daily
  }

  // ---- Sums do not depend on the order of the ledger rows ----

  lemma {:induction false} DailySumAppend(a: seq<LedgerRow>, b: seq<LedgerRow>, k: DailyKey)
    ensures DailySum(a + b, k) == DailySum(a, k) + DailySum(b, k)
  {
    if a != [] {
      assert (a + b)[1..] == a[1..] + b;
      DailySumAppend(a[1..], b, k);
    } else {
      assert a + b == b;
    }
  }

  lemma {:induction false} DailySumPermutation(a: seq<LedgerRow>, b: seq<LedgerRow>, k: DailyKey)
    requires multiset(a) == multiset(b)
    ensures DailySum(a, k) == DailySum(b, k)
    decreases |a|
  {
    if a == [] {
      assert |b| == |multiset(b)| == 0;
    } else {
      var x := a[0];
      assert x in multiset(b);
      var i :| 0 <= i < |b| && b[i] == x;
      var rest := b[..i] + b[i + 1..];
      DailySumRemove(b, i, k);
      assert a == [x] + a[1..];
      MultisetCancel(x, a[1..], rest);
      DailySumPermutation(a[1..], rest, k);
    }
  }

  /** Taking the row at `i` out of `b`. */
  lemma DailySumRemove(b: seq<LedgerRow>, i: nat, k: DailyKey)
    requires i < |b|
    ensures DailySum(b, k) == Contribution(b[i], k) + DailySum(b[..i] + b[i + 1..], k)
    ensures multiset(b) == multiset{b[i]} + multiset(b[..i] + b[i + 1..])
  {
    assert b == b[..i] + ([b[i]] + b[i + 1..]);
    DailySumAppend(b[..i], [b[i]] + b[i + 1..], k);
    DailySumAppend(b[..i], b[i + 1..], k);
    assert ([b[i]] + b[i + 1..])[1..] == b[i + 1..];
  }

  lemma MultisetCancel(x: LedgerRow, p: seq<LedgerRow>, q: seq<LedgerRow>)
    requires multiset{x} + multiset(p) == multiset{x} + multiset(q)
    ensures multiset(p) == multiset(q)
  {
    forall y ensures multiset(p)[y] == multiset(q)[y] {
      assert (multiset{x} + multiset(p))[y] == (multiset{x} + multiset(q))[y];
    }
  }

  /** Reordering the ledger leaves the daily table unchanged. */
  lemma AggregateIgnoresRowOrder(a: seq<LedgerRow>, b: seq<LedgerRow>)
    requires multiset(a) == multiset(b)
    ensures Aggregate(a) == Aggregate(b)
  {
    forall r ensures r in a <==> r in b {
      assert r in a <==> r in multiset(a);
      assert r in b <==> r in multiset(b);
    }
    var ka, kb := SortDistinct(GroupKeys(a), DailyKeyLt), SortDistinct(GroupKeys(b), DailyKeyLt);
    DailyKeyLtIsStrictTotalOrder();
    SortDistinctSpec(GroupKeys(a), DailyKeyLt);
    SortDistinctSpec(GroupKeys(b), DailyKeyLt);
    SortedUnique(ka, kb, DailyKeyLt);
    forall k ensures DailySum(a, k) == DailySum(b, k) {
      DailySumPermutation(a, b, k);
    }
  }

  /** A row whose Date is NaT, or whose Type or Account is missing, leaves no
      trace in the daily table. */
  lemma DroppedRowLeavesNoTrace(a: seq<LedgerRow>, r: LedgerRow, b: seq<LedgerRow>)
    requires KeyOf(r) == None
    ensures Aggregate(a + [r] + b) == Aggregate(a + b)
  {
    forall k ensures DailySum(a + [r] + b, k) == DailySum(a + b, k) {
      DailySumAppend(a + [r], b, k);
      DailySumAppend(a, [r], k);
      DailySumAppend(a, b, k);
      assert DailySum([r], k) == 0 by { assert [r][1..] == []; }
    }
    var ka, kb := SortDistinct(GroupKeys(a + [r] + b), DailyKeyLt), SortDistinct(GroupKeys(a + b), DailyKeyLt);
    DailyKeyLtIsStrictTotalOrder();
    SortDistinctSpec(GroupKeys(a + [r] + b), DailyKeyLt);
    SortDistinctSpec(GroupKeys(a + b), DailyKeyLt);
    forall x ensures x in ka <==> x in kb {
      if x in ka {
        var s :| s in a + [r] + b && KeyOf(s) == Some(x);
        assert s in a + b;
      }
      if x in kb {
        var s :| s in a + b && KeyOf(s) == Some(x);
        assert s in a + [r] + b;
      }
    }
    SortedUnique(ka, kb, DailyKeyLt);
  }

  // ---- The daily table adds up like the ledger it groups ----

  /** Which (Account, month) groups a sum takes. */
  type Selection = (string, Month) -> bool

  predicate SelectsKey(sel: Selection, k: DailyKey) {
    sel(k.account, MonthOf(k.date))
  }

  /** The signed amounts of the ledger rows that groupby keeps and whose
      Account and month `sel` takes. */
  function LedgerSumWhere(rows: seq<LedgerRow>, sel: Selection): int {
    if rows == [] then 0
    else
      var share := if KeyOf(rows[0]).Some? && SelectsKey(sel, KeyOf(rows[0]).value) then AdjCreditsDebit(rows[0]) else 0;
      share + LedgerSumWhere(rows[1..], sel)
  }

  /** The amounts of the daily rows whose Account and year_month `sel` takes. */
  function DailySumWhere(daily: seq<DailyRow>, sel: Selection): int {
    if daily == [] then 0
    else (if sel(daily[0].account, daily[0].yearMonth) then daily[0].amount else 0) + DailySumWhere(daily[1..], sel)
  }

  function KeysOf(daily: seq<DailyRow>): (keys: seq<DailyKey>)
    ensures |keys| == |daily|
    ensures forall i :: 0 <= i < |daily| ==> keys[i] == KeyOfDaily(daily[i])
  {
    seq(|daily|, i requires 0 <= i < |daily| => KeyOfDaily(daily[i]))
  }

  /** The group sums of the selected keys among `keys`. */
  function KeyedTotal(keys: seq<DailyKey>, rows: seq<LedgerRow>, sel: Selection): int {
    if keys == [] then 0
    else (if SelectsKey(sel, keys[0]) then DailySum(rows, keys[0]) else 0) + KeyedTotal(keys[1..], rows, sel)
  }

  /** What one ledger row adds to the group sums of the selected keys. */
  function RowShare(keys: seq<DailyKey>, r: LedgerRow, sel: Selection): int {
    if keys == [] then 0
    else (if SelectsKey(sel, keys[0]) then Contribution(r, keys[0]) else 0) + RowShare(keys[1..], r, sel)
  }

  lemma {:induction false} DailySumWhereIsKeyedTotal(daily: seq<DailyRow>, rows: seq<LedgerRow>, sel: Selection)
    requires forall d :: d in daily ==> d.amount == DailySum(rows, KeyOfDaily(d)) && d.yearMonth == MonthOf(d.date)
    ensures DailySumWhere(daily, sel) == KeyedTotal(KeysOf(daily), rows, sel)
  {
    if daily != [] {
      assert daily[0] in daily;
      assert KeysOf(daily)[1..] == KeysOf(daily[1..]);
      DailySumWhereIsKeyedTotal(daily[1..], rows, sel);
    }
  }

  lemma {:induction false} KeyedTotalOfNoRows(keys: seq<DailyKey>, sel: Selection)
    ensures KeyedTotal(keys, [], sel) == 0
  {
    if keys != [] {
      KeyedTotalOfNoRows(keys[1..], sel);
    }
  }

  lemma {:induction false} KeyedTotalCons(keys: seq<DailyKey>, rows: seq<LedgerRow>, sel: Selection)
    requires rows != []
    ensures KeyedTotal(keys, rows, sel) == RowShare(keys, rows[0], sel) + KeyedTotal(keys, rows[1..], sel)
  {
    if keys != [] {
      KeyedTotalCons(keys[1..], rows, sel);
    }
  }

  /** Keys that are all different take a row's amount at most once. */
  lemma {:induction false} RowShareOfDistinct(keys: seq<DailyKey>, r: LedgerRow, sel: Selection)
    requires Distinct(keys)
    ensures RowShare(keys, r, sel) ==
      if KeyOf(r).Some? && KeyOf(r).value in keys && SelectsKey(sel, KeyOf(r).value) then AdjCreditsDebit(r) else 0
  {
    if keys != [] {
      assert Distinct(keys[1..]) by {
        forall i, j | 0 <= i < j < |keys[1..]| ensures keys[1..][i] != keys[1..][j] {
          assert keys[1..][i] == keys[i + 1] && keys[1..][j] == keys[j + 1];
        }
      }
      RowShareOfDistinct(keys[1..], r, sel);
      assert keys[0] !in keys[1..] by {
        forall i | 0 <= i < |keys[1..]| ensures keys[1..][i] != keys[0] {
          assert keys[1..][i] == keys[i + 1];
        }
      }
      assert forall x :: x in keys <==> x == keys[0] || x in keys[1..];
    }
  }

  /** Regrouping: the selected group sums add up to the selected ledger rows. */
  lemma {:induction false} KeyedTotalIsLedgerSum(keys: seq<DailyKey>, rows: seq<LedgerRow>, sel: Selection)
    requires Distinct(keys)
    requires forall r :: r in rows && KeyOf(r).Some? ==> KeyOf(r).value in keys
    ensures KeyedTotal(keys, rows, sel) == LedgerSumWhere(rows, sel)
  {
    if rows == [] {
      KeyedTotalOfNoRows(keys, sel);
    } else {
      assert rows[0] in rows;
      KeyedTotalCons(keys, rows, sel);
      RowShareOfDistinct(keys, rows[0], sel);
      KeyedTotalIsLedgerSum(keys, rows[1..], sel);
    }
  }

  /** Every ledger row that groupby keeps is counted in the daily table
      exactly once: over any choice of Accounts and months, the daily amounts
      add up to the signed amounts of the ledger rows. */
  lemma AggregateSumWhere(rows: seq<LedgerRow>, sel: Selection)
    ensures DailySumWhere(Aggregate(rows), sel) == LedgerSumWhere(rows, sel)
  {
    var daily := Aggregate(rows);
    var keys := KeysOf(daily);
    DailySumWhereIsKeyedTotal(daily, rows, sel);
    DailyKeyLtIsStrictTotalOrder();
    assert StrictlySorted(keys, DailyKeyLt) by {
      forall i, j | 0 <= i < j < |keys| ensures DailyKeyLt(keys[i], keys[j]) {
        assert DailyLt(daily[i], daily[j]);
      }
    }
    SortedIsDistinct(keys, DailyKeyLt);
    forall r | r in rows && KeyOf(r).Some? ensures KeyOf(r).value in keys {
      var d :| d in daily && KeyOfDaily(d) == KeyOf(r).value;
      var i :| 0 <= i < |daily| && daily[i] == d;
      assert keys[i] == KeyOf(r).value;
    }
    KeyedTotalIsLedgerSum(keys, rows, sel);
  }
}
