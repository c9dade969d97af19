/** The ledger table that `clean_df` receives, after `pd.to_datetime` has
  turned each Date into a calendar date or into NaT (None here).

  Amounts are integer cents, so the `.round(2)` calls of the pipeline leave
  every value unchanged. Type and Account may be missing (NaN): the grouping
  of the daily aggregation drops such rows.
*/
module Ledger {
  import opened Order

  datatype Option<T> = None | Some(value: T)

  datatype Date = Date(year: int, month: int, day: int)

  /** The `year_month` key, "YYYY-MM" in the source. */
  datatype Month = Month(year: int, month: int)

  function MonthOf(d: Date): Month {
    Month(d.year, d.month)
  }

  predicate MonthLt(a: Month, b: Month) {
    a.year < b.year || (a.year == b.year && a.month < b.month)
  }

  predicate DateLt(a: Date, b: Date) {
    MonthLt(MonthOf(a), MonthOf(b)) || (MonthOf(a) == MonthOf(b) && a.day < b.day)
  }

  lemma MonthLtIsStrictTotalOrder()
    ensures IsStrictTotalOrder(MonthLt)
  {
  }

  lemma DateLtIsStrictTotalOrder()
    ensures IsStrictTotalOrder(DateLt)
  {
  }

  /** One row of the ledger: the columns Date, Type, Account, Effect, Amount. */
  datatype LedgerRow = LedgerRow(
    date: Option<Date>,
    typ: Option<string>,
    account: Option<string>,
    effect: string,
    amount: int)

  const RequiredColumns: seq<string> := ["Date", "Account", "Type", "Effect", "Amount"]

  /** Column names are compared exactly, so "date" does not stand for "Date". */
  predicate HasRequiredColumns(columns: seq<string>) {
    forall c :: c in RequiredColumns ==> c in columns
  }

  /** The ValueError raised by the column check; its message lists the
      required columns, not the missing ones. */
  datatype LedgerError = MissingColumns(required: seq<string>)

  function CheckColumns(columns: seq<string>): (error: Option<LedgerError>)
    ensures error == None <==> HasRequiredColumns(columns)
    ensures error != None ==> error == Some(MissingColumns(RequiredColumns))
    ensures error != None <==> exists i :: 0 <= i < |RequiredColumns| && RequiredColumns[i] !in columns
  {
    if HasRequiredColumns(columns) then None else Some(MissingColumns(RequiredColumns))
  }

  // ---- The "YYYY-MM" text of a month key ----

  function Pow10(n: nat): (p: nat)
    ensures p >= 1
  {
    if n == 0 then 1 else 10 * Pow10(n - 1)
  }

  function DigitChar(d: int): char
    requires 0 <= d < 10
  {
    ('0' as int + d) as char
  }

  /** The last `width` decimal digits of `n`, zero-padded (strftime's %Y and %m). */
  function Decimal(n: nat, width: nat): (s: string)
    ensures |s| == width
  {
    if width == 0 then "" else Decimal(n / 10, width - 1) + [DigitChar(n % 10)]
  }

  /** Years of pandas timestamps (1677 to 2262) all have four digits. */
  predicate ValidMonth(m: Month) {
    1000 <= m.year <= 9999 && 1 <= m.month <= 12
  }

  function MonthKey(m: Month): (key: string)
    requires ValidMonth(m)
    ensures |key| == 7
  {
    Decimal(m.year, 4) + "-" + Decimal(m.month, 2)
  }

  predicate IsDigit(c: char) {
    '0' <= c <= '9'
  }

  /** `re.match(r'\d{4}-\d{2}', s)`: anchored at the start only. Python's \d
      also takes non-ASCII decimal digits; the column labels it is matched
      against are `MonthKey`s and 'Year Total', which hold only ASCII digits. */
  predicate MatchesMonthPattern(s: string) {
    |s| >= 7 && IsDigit(s[0]) && IsDigit(s[1]) && IsDigit(s[2]) && IsDigit(s[3])
    && s[4] == '-' && IsDigit(s[5]) && IsDigit(s[6])
  }

  lemma {:induction false} DecimalDigits(n: nat, width: nat)
    ensures forall i :: 0 <= i < width ==> IsDigit(Decimal(n, width)[i])
  {
    if width > 0 {
      DecimalDigits(n / 10, width - 1);
    }
  }

  /** Fixed-width decimal text orders like the numbers it writes. */
  lemma {:induction false} DecimalOrder(a: nat, b: nat, width: nat)
    requires a < Pow10(width) && b < Pow10(width)
    ensures StrLt(Decimal(a, width), Decimal(b, width)) <==> a < b
    ensures Decimal(a, width) == Decimal(b, width) <==> a == b
  {
    if width > 0 {
      var ha, hb := Decimal(a / 10, width - 1), Decimal(b / 10, width - 1);
      var ta, tb := [DigitChar(a % 10)], [DigitChar(b % 10)];
      DecimalOrder(a / 10, b / 10, width - 1);
      StrLtConcat(ha, ta, hb, tb);
      StrLtIrreflexive(ha);
      assert StrLt(ta, tb) <==> a % 10 < b % 10;
      if ha + ta == hb + tb {
        assert ha == (ha + ta)[..width - 1] && hb == (hb + tb)[..width - 1];
        assert ta[0] == (ha + ta)[width - 1] && tb[0] == (hb + tb)[width - 1];
      }
    }
  }

  /** The order of months is the text order of their "YYYY-MM" keys, which
      is the order pandas gives the month columns. */
  lemma MonthKeyOrder(a: Month, b: Month)
    requires ValidMonth(a) && ValidMonth(b)
    ensures MonthLt(a, b) <==> StrLt(MonthKey(a), MonthKey(b))
    ensures a == b <==> MonthKey(a) == MonthKey(b)
  {
    var ya, yb := Decimal(a.year, 4), Decimal(b.year, 4);
    var ma, mb := Decimal(a.month, 2), Decimal(b.month, 2);
    DecimalOrder(a.year, b.year, 4);
    DecimalOrder(a.month, b.month, 2);
    StrLtIrreflexive(ma);
    StrLtConcat(ya, "-" + ma, yb, "-" + mb);
    StrLtConcat("-", ma, "-", mb);
    StrLtIrreflexive("-");
    assert MonthKey(a) == ya + ("-" + ma) && MonthKey(b) == yb + ("-" + mb);
    if MonthKey(a) == MonthKey(b) {
      assert ya == MonthKey(a)[..4] && yb == MonthKey(b)[..4];
      assert ma == MonthKey(a)[5..] && mb == MonthKey(b)[5..];
    }
  }

  /** Every month column passes the Year Total filter; "Year Total" does not. */
  lemma MonthKeyMatchesPattern(m: Month)
    requires ValidMonth(m)
    ensures MatchesMonthPattern(MonthKey(m))
    ensures !MatchesMonthPattern("Year Total")
  {
    DecimalDigits(m.year, 4);
    DecimalDigits(m.month, 2);
    var k := MonthKey(m);
    assert k[..4] == Decimal(m.year, 4) && k[4] == '-' && k[5..] == Decimal(m.month, 2);
    assert k[5] == k[5..][0] && k[6] == k[5..][1];
  }
}
