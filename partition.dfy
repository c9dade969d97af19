/** `split_df` (DataScrub.py:29-45), applied to the daily table at
  DataScrub.py:83: a row goes to the income statement when its Account
  matches `expense|revenue` ignoring case, and to the balance sheet
  otherwise. Boolean indexing keeps the rows of each part in their order.
*/
module Partition {
  import opened Ledger
  import opened Text
  import opened Daily

  /** `str.contains(pattern, na=False)`: a missing Account does not match. */
  predicate AccountMask(account: Option<string>) {
    account.Some? && IsIncomeAccount(account.value)
  }

  predicate Matching(d: DailyRow) {
    AccountMask(Some(d.account))
  }

  /** `s` is `p` and `q` shuffled together, each keeping its order. */
  predicate Interleaves(s: seq<DailyRow>, p: seq<DailyRow>, q: seq<DailyRow>)
    decreases |s|
  {
    if s == [] then p == [] && q == []
    else
      || (p != [] && p[0] == s[0] && Interleaves(s[1..], p[1..], q))
      || (q != [] && q[0] == s[0] && Interleaves(s[1..], p, q[1..]))
  }

  /** The matching rows and the other rows, both in table order. */
  function SplitDf(rows: seq<DailyRow>): (parts: (seq<DailyRow>, seq<DailyRow>))
    ensures Interleaves(rows, parts.0, parts.1)
    ensures forall d :: d in parts.0 ==> Matching(d)
    ensures forall d :: d in parts.1 ==> !Matching(d)
  {
    if rows == [] then ([], [])
    else
      var rest := SplitDf(rows[1..]);
      if Matching(rows[0]) then ([rows[0]] + rest.0, rest.1)
      else (rest.0, [rows[0]] + rest.1)
  }

  /** Every row is in exactly one part, as often as in the table. */
  lemma {:induction false} InterleavesIsPartition(s: seq<DailyRow>, p: seq<DailyRow>, q: seq<DailyRow>)
    requires Interleaves(s, p, q)
    ensures multiset(s) == multiset(p) + multiset(q)
    decreases |s|
  {
    if s != [] {
      assert s == [s[0]] + s[1..];
      if p != [] && p[0] == s[0] && Interleaves(s[1..], p[1..], q) {
        InterleavesIsPartition(s[1..], p[1..], q);
        assert p == [p[0]] + p[1..];
      } else {
        InterleavesIsPartition(s[1..], p, q[1..]);
        assert q == [q[0]] + q[1..];
      }
    }
  }

  /** A part of a sorted table is sorted: each part keeps the order of
      the daily table. */
  lemma {:induction false} InterleavesKeepsOrder(s: seq<DailyRow>, p: seq<DailyRow>, q: seq<DailyRow>)
    requires Interleaves(s, p, q)
    requires Order.StrictlySorted(s, DailyLt)
    ensures Order.StrictlySorted(p, DailyLt) && Order.StrictlySorted(q, DailyLt)
    decreases |s|
  {
    if s != [] {
      assert Order.StrictlySorted(s[1..], DailyLt);
      if p != [] && p[0] == s[0] && Interleaves(s[1..], p[1..], q) {
        InterleavesKeepsOrder(s[1..], p[1..], q);
        InterleavesIsPartition(s[1..], p[1..], q);
        forall j | 0 < j < |p| ensures DailyLt(p[0], p[j]) {
          assert p[j] in multiset(s[1..]);
        }
      } else {
        InterleavesKeepsOrder(s[1..], p, q[1..]);
        InterleavesIsPartition(s[1..], p, q[1..]);
        forall j | 0 < j < |q| ensures DailyLt(q[0], q[j]) {
          assert q[j] in multiset(s[1..]);
        }
      }
    }
  }

  /** The mask decides the split: any interleaving that puts exactly the
      matching rows on the left is the one SplitDf returns. */
  lemma {:induction false} SplitDfUnique(rows: seq<DailyRow>, p: seq<DailyRow>, q: seq<DailyRow>)
    requires Interleaves(rows, p, q)
    requires forall d :: d in p ==> Matching(d)
    requires forall d :: d in q ==> !Matching(d)
    ensures SplitDf(rows) == (p, q)
    decreases |rows|
  {
    if rows != [] {
      if p != [] && p[0] == rows[0] && Interleaves(rows[1..], p[1..], q) {
        SplitDfUnique(rows[1..], p[1..], q);
        assert p == [p[0]] + p[1..];
      } else {
        assert q[0] in q;
        SplitDfUnique(rows[1..], p, q[1..]);
        assert q == [q[0]] + q[1..];
      }
    }
  }
}
