/** Rows of amounts and their totals: `make_total_row` (DataScrub.py:87-100)
  and the sign flip of the displayed expense section (DataScrub.py:174).

  A dense row holds one amount per month column, as the zero-filled income
  statement does. A sparse row maps each month to its amount and leaves out
  the months where pandas holds NaN, as the balance sheet does.
*/
module Tables {
  import opened Ledger

  function Sum(xs: seq<int>): int {
    if xs == [] then 0 else xs[0] + Sum(xs[1..])
  }

  predicate HasWidth(rows: seq<seq<int>>, width: nat) {
    forall r :: r in rows ==> |r| == width
  }

  /** The amounts of column `j`, added down the rows. */
  function ColumnSum(rows: seq<seq<int>>, j: nat): int
    requires forall r :: r in rows ==> j < |r|
  {
    if rows == [] then 0 else rows[0][j] + ColumnSum(rows[1..], j)
  }

  /** `df[numeric_cols].sum()` over dense rows. */
  function TotalRow(rows: seq<seq<int>>, width: nat): (total: seq<int>)
    requires HasWidth(rows, width)
    ensures |total| == width
  {
    seq(width, j requires 0 <= j < width => ColumnSum(rows, j))
  }

  function Negate(xs: seq<int>): (ys: seq<int>)
    ensures |ys| == |xs|
    ensures forall j :: 0 <= j < |xs| ==> ys[j] == -xs[j]
  {
    seq(|xs|, j requires 0 <= j < |xs| => -xs[j])
  }

  function NegateRows(rows: seq<seq<int>>): (negated: seq<seq<int>>)
    ensures |negated| == |rows|
    ensures forall i :: 0 <= i < |rows| ==> negated[i] == Negate(rows[i])
  {
    seq(|rows|, i requires 0 <= i < |rows| => Negate(rows[i]))
  }

  /** The sum of a column is the sum of its parts. */
  lemma {:induction false} ColumnSumAppend(a: seq<seq<int>>, b: seq<seq<int>>, j: nat)
    requires forall r :: r in a + b ==> j < |r|
    ensures ColumnSum(a + b, j) == ColumnSum(a, j) + ColumnSum(b, j)
  {
    if a == [] {
      assert a + b == b;
    } else {
      assert (a + b)[1..] == a[1..] + b;
      ColumnSumAppend(a[1..], b, j);
    }
  }

  lemma {:induction false} ColumnSumNegated(rows: seq<seq<int>>, j: nat)
    requires forall r :: r in rows ==> j < |r|
    ensures ColumnSum(NegateRows(rows), j) == -ColumnSum(rows, j)
  {
    if rows != [] {
      assert NegateRows(rows)[1..] == NegateRows(rows[1..]);
      ColumnSumNegated(rows[1..], j);
    }
  }

  /** Negating every row and then totalling gives the negated total: the
      displayed "Total Expenses" is the total of the displayed expense rows. */
  lemma TotalOfNegatedRows(rows: seq<seq<int>>, width: nat)
    requires HasWidth(rows, width)
    ensures HasWidth(NegateRows(rows), width)
    ensures TotalRow(NegateRows(rows), width) == Negate(TotalRow(rows, width))
  {
    forall j | 0 <= j < width ensures TotalRow(NegateRows(rows), width)[j] == Negate(TotalRow(rows, width))[j] {
      ColumnSumNegated(rows, j);
    }
  }

  /** A total row of no rows is all zeros. */
  lemma TotalOfNoRows(width: nat)
    ensures forall j :: 0 <= j < width ==> TotalRow([], width)[j] == 0
  {
  }

  // ---- Sparse rows: NaN cells are absent and count as 0 in a sum ----

  function CellOr0(cells: map<Month, int>, m: Month): int {
    if m in cells then cells[m] else 0
  }

  function SparseColumnSum(rows: seq<map<Month, int>>, m: Month): int {
    if rows == [] then 0 else CellOr0(rows[0], m) + SparseColumnSum(rows[1..], m)
  }

  /** `df[numeric_cols].sum()` over sparse rows: one cell per column of
      `columns`, NaN skipped, 0 for a column with no amount. */
  function SparseTotalRow(rows: seq<map<Month, int>>, columns: seq<Month>): (total: map<Month, int>)
    ensures forall m :: m in total <==> m in columns
  {
    map m | m in columns :: SparseColumnSum(rows, m)
  }

  lemma {:induction false} SparseColumnSumAppend(a: seq<map<Month, int>>, b: seq<map<Month, int>>, m: Month)
    ensures SparseColumnSum(a + b, m) == SparseColumnSum(a, m) + SparseColumnSum(b, m)
  {
    if a == [] {
      assert a + b == b;
    } else {
      assert (a + b)[1..] == a[1..] + b;
      SparseColumnSumAppend(a[1..], b, m);
    }
  }
}
