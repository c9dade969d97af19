/** The GAAP sign rule `adj_credits_debit` (DataScrub.py:8-27), applied to
  every ledger row to make the `gaap_amount` column (DataScrub.py:75).
*/
module Signs {
  import opened Ledger

  function Abs(x: int): int {
    if x < 0 then -x else x
  }

  /** The combinations the rule negates: a CREDIT to an Asset, a DEBIT to
      anything else (a missing Type is "anything else"). */
  predicate NegatingSide(r: LedgerRow) {
    if r.typ == Some("Asset") then r.effect == "CREDIT" else r.effect == "DEBIT"
  }

  /** The negating side gives -|Amount|; every other Effect, including a
      value that is neither CREDIT nor DEBIT, passes Amount through as it is,
      without taking its absolute value. */
  function AdjCreditsDebit(r: LedgerRow): (signed: int)
    ensures Abs(signed) == Abs(r.amount)
    ensures NegatingSide(r) ==> signed <= 0
    ensures !NegatingSide(r) ==> signed == r.amount
  {
    if r.typ == Some("Asset") then
      if r.effect == "CREDIT" then -Abs(r.amount) else r.amount
    else
      if r.effect == "DEBIT" then -Abs(r.amount) else r.amount
  }

  function WithEffect(r: LedgerRow, effect: string): LedgerRow {
    r.(effect := effect)
  }

  /** For a magnitude (Amount >= 0), a CREDIT and a DEBIT of the same amount
      to the same account cancel. */
  lemma CreditAndDebitCancel(r: LedgerRow)
    requires r.amount >= 0
    ensures AdjCreditsDebit(WithEffect(r, "CREDIT")) + AdjCreditsDebit(WithEffect(r, "DEBIT")) == 0
  {
  }

  /** Assets move the opposite way to every other Type: the same Effect and
      magnitude give opposite signs, for CREDIT and for DEBIT. */
  lemma AssetPolarityIsReversed(r: LedgerRow, other: string)
    requires r.amount >= 0 && other != "Asset"
    requires r.effect == "CREDIT" || r.effect == "DEBIT"
    ensures AdjCreditsDebit(r.(typ := Some("Asset"))) == -AdjCreditsDebit(r.(typ := Some(other)))
  {
  }

  /** The Amount column is a magnitude: the sign of the stored number plays
      no part on the negating side. */
  lemma NegatingSideIgnoresStoredSign(r: LedgerRow)
    requires NegatingSide(r)
    ensures AdjCreditsDebit(r) == AdjCreditsDebit(r.(amount := -r.amount))
  {
  }

  /** The amounts of the `gaap_amount` column, one per ledger row. */
  function SignedAmounts(rows: seq<LedgerRow>): (amounts: seq<int>)
    ensures |amounts| == |rows|
    ensures forall i :: 0 <= i < |rows| ==> amounts[i] == AdjCreditsDebit(rows[i])
  {
    seq(|rows|, i requires 0 <= i < |rows| => AdjCreditsDebit(rows[i]))
  }
}
