/** The two regular-expression tests on account names and the label
  clean-up of the income statement.

  - `split_df` keeps an account for the income statement when
    `expense|revenue` matches anywhere in it, ignoring case
    (DataScrub.py:41-42); `clean_ic` calls it a Revenue account when
    `revenue` does (DataScrub.py:117).
  - `split_expenses_revenues` deletes `Expense\s*` from expense labels and
    `Revenue\s*` from revenue labels, case-sensitively (DataScrub.py:154-155).
*/
module Text {

  /** Python's `\s` on str: exactly the characters for which str.isspace() holds. */
  predicate IsSpace(c: char) {
    || ('\t' <= c <= '\r')
    || ('\U{1C}' <= c <= ' ')
    || c == '\U{85}' || c == '\U{A0}' || c == '\U{1680}'
    || ('\U{2000}' <= c <= '\U{200A}')
    || c == '\U{2028}' || c == '\U{2029}' || c == '\U{202F}' || c == '\U{205F}' || c == '\U{3000}'
  }

  predicate IsLowerWord(w: string) {
    forall i :: 0 <= i < |w| ==> 'a' <= w[i] <= 'z'
  }

  /** Does text character `c` match pattern letter `p` under re.IGNORECASE?
      Besides the ASCII upper-case letter, Python also lets 'ſ' match 's',
      the Kelvin sign match 'k' and the dotless 'ı' match 'i'. */
  predicate FoldsTo(c: char, p: char)
    requires 'a' <= p <= 'z'
  {
    || c == p
    || c as int == p as int - 32
    || (p == 's' && c == '\U{17F}')
    || (p == 'k' && c == '\U{212A}')
    || (p == 'i' && c == '\U{131}')
  }

  predicate MatchesAt(s: string, i: int, w: string)
    requires IsLowerWord(w)
  {
    0 <= i && i + |w| <= |s| && forall j :: 0 <= j < |w| ==> FoldsTo(s[i + j], w[j])
  }

  /** `re.search(w, s, re.IGNORECASE) is not None`, scanning left to right. */
  function ContainsIgnoreCase(s: string, w: string): bool
    requires IsLowerWord(w)
  {
    if |s| < |w| then false else MatchesAt(s, 0, w) || ContainsIgnoreCase(s[1..], w)
  }

  lemma {:induction false} ContainsIgnoreCaseSpec(s: string, w: string)
    requires IsLowerWord(w)
    ensures ContainsIgnoreCase(s, w) <==> exists i :: MatchesAt(s, i, w)
  {
    if |s| >= |w| && s != [] {
      ContainsIgnoreCaseSpec(s[1..], w);
      forall i | MatchesAt(s[1..], i, w) ensures MatchesAt(s, i + 1, w) {
      }
      forall i | MatchesAt(s, i, w) && i != 0 ensures MatchesAt(s[1..], i - 1, w) {
      }
    }
  }

  /** The income-statement routing rule of split_df. */
  predicate IsIncomeAccount(account: string) {
    ContainsIgnoreCase(account, "expense") || ContainsIgnoreCase(account, "revenue")
  }

  /** The Category rule of clean_ic: Revenue, otherwise Expense. */
  predicate IsRevenueAccount(account: string) {
    ContainsIgnoreCase(account, "revenue")
  }

  /** The run of `\s*` at the start of `s` removed. */
  function DropSpaces(s: string): (r: string)
    ensures |r| <= |s|
  {
    if s != [] && IsSpace(s[0]) then DropSpaces(s[1..]) else s
  }

  /** DropSpaces removes a run of whitespace and nothing else. */
  lemma {:induction false} DropSpacesSpec(s: string)
    ensures DropSpaces(s) == s[|s| - |DropSpaces(s)|..]
    ensures DropSpaces(s) == [] || !IsSpace(DropSpaces(s)[0])
    ensures forall i :: 0 <= i < |s| - |DropSpaces(s)| ==> IsSpace(s[i])
  {
    if s != [] && IsSpace(s[0]) {
      DropSpacesSpec(s[1..]);
    }
  }

  /** `re.sub(w + r'\s*', '', s)`: scanning left to right, every occurrence of
      `w` found is deleted with the whitespace that follows it, and scanning
      resumes after it. */
  function Strip(s: string, w: string): (r: string)
    requires w != []
    decreases |s|
  {
    if s == [] then []
    else if w <= s then Strip(DropSpaces(s[|w|..]), w)
    else [s[0]] + Strip(s[1..], w)
  }

  predicate OccursAt(s: string, i: int, w: string) {
    0 <= i <= |s| && w <= s[i..]
  }

  /** A name without the word is left exactly as it is. */
  lemma {:induction false} StripWithoutOccurrence(s: string, w: string)
    requires w != []
    requires forall i :: 0 <= i < |s| ==> !OccursAt(s, i, w)
    ensures Strip(s, w) == s
  {
    if s != [] {
      assert !OccursAt(s, 0, w);
      assert s[0..] == s;
      forall i | 0 <= i < |s| - 1 ensures !OccursAt(s[1..], i, w) {
        assert !OccursAt(s, i + 1, w);
        assert s[1..][i..] == s[i + 1..];
      }
      StripWithoutOccurrence(s[1..], w);
      assert s == [s[0]] + s[1..];
    }
  }

  /** `w` does not occur at any of the first `i` positions of `s`. */
  predicate NoOccurrenceBefore(s: string, i: nat, w: string)
    decreases i
  {
    i == 0 || (s != [] && !(w <= s) && NoOccurrenceBefore(s[1..], i - 1, w))
  }

  /** What precedes the first occurrence is kept; the occurrence and the
      whitespace after it go; the rest is stripped the same way. */
  lemma {:induction false} StripAtFirstOccurrence(s: string, w: string, i: nat)
    requires w != []
    requires i <= |s| && w <= s[i..]
    requires NoOccurrenceBefore(s, i, w)
    ensures i + |w| <= |s|
    ensures Strip(s, w) == s[..i] + Strip(DropSpaces(s[i + |w|..]), w)
  {
    if i == 0 {
      StripAtStart(s, w);
    } else {
      SliceShift(s, i, 0);
      StripAtFirstOccurrence(s[1..], w, i - 1);
      StripKeepsHead(s, w, i);
    }
  }

  lemma SliceShift(s: string, i: int, n: nat)
    requires 0 < i && i + n <= |s|
    ensures s[1..][i - 1 + n..] == s[i + n..]
    ensures s[..i] == [s[0]] + s[1..][..i - 1]
  {
  }

  lemma StripAtStart(s: string, w: string)
    requires w != [] && w <= s[0..]
    ensures Strip(s, w) == s[..0] + Strip(DropSpaces(s[0 + |w|..]), w)
  {
    assert s[0..] == s;
    assert s[..0] == [];
  }

  lemma StripKeepsHead(s: string, w: string, i: nat)
    requires w != [] && 0 < i <= |s| - |w| && !(w <= s)
    requires Strip(s[1..], w) == s[1..][..i - 1] + Strip(DropSpaces(s[1..][i - 1 + |w|..]), w)
    ensures Strip(s, w) == s[..i] + Strip(DropSpaces(s[i + |w|..]), w)
  {
    SliceShift(s, i, |w|);
    assert Strip(s, w) == [s[0]] + Strip(s[1..], w);
    ConsAppend(s[0], s[1..][..i - 1], Strip(DropSpaces(s[i + |w|..]), w));
  }

  lemma ConsAppend<T>(x: T, a: seq<T>, b: seq<T>)
    ensures [x] + (a + b) == ([x] + a) + b
  {
  }

  /** The quantified reading of NoOccurrenceBefore. */
  lemma {:induction false} NoOccurrenceBeforeSpec(s: string, i: nat, w: string)
    requires i <= |s|
    ensures NoOccurrenceBefore(s, i, w) <==> forall j :: 0 <= j < i ==> !(w <= s[j..])
  {
    if i > 0 {
      NoOccurrenceBeforeSpec(s[1..], i - 1, w);
      assert s[0..] == s;
      assert forall j :: 1 <= j < i ==> s[1..][j - 1..] == s[j..];
    }
  }

  /** The removed part is the word and whitespace only: stripping never
      lengthens a name. */
  lemma {:induction false} StripShortens(s: string, w: string)
    requires w != []
    ensures |Strip(s, w)| <= |s|
    decreases |s|
  {
    if s != [] {
      if w <= s {
        StripShortens(DropSpaces(s[|w|..]), w);
      } else {
        StripShortens(s[1..], w);
      }
    }
  }
}
