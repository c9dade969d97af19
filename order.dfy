/** Orders, sorting with de-duplication, and the code-point order on strings.

  pandas sorts group keys (groupby, pivot_table) and sort_values columns in
  ascending order; for text columns that is Python's string comparison, the
  lexicographic order on code points. Every sorted key list of the model is
  built by SortDistinct from a strict total order `lt`.
*/
module Order {

  ghost predicate IsStrictTotalOrder<K(!new)>(lt: (K, K) -> bool) {
    && (forall a :: !lt(a, a))
    && (forall a, b, c :: lt(a, b) && lt(b, c) ==> lt(a, c))
    && (forall a, b :: a == b || lt(a, b) || lt(b, a))
  }

  /** Ascending and without duplicates. */
  predicate StrictlySorted<K>(s: seq<K>, lt: (K, K) -> bool) {
    forall i, j :: 0 <= i < j < |s| ==> lt(s[i], s[j])
  }

  predicate Distinct<K(==)>(s: seq<K>) {
    forall i, j :: 0 <= i < j < |s| ==> s[i] != s[j]
  }

  lemma SortedIsDistinct<K(!new)>(s: seq<K>, lt: (K, K) -> bool)
    requires IsStrictTotalOrder(lt) && StrictlySorted(s, lt)
    ensures Distinct(s)
  {
    forall i, j | 0 <= i < j < |s| ensures s[i] != s[j] {
      assert lt(s[i], s[j]);
    }
  }

  /** Inserts `k` at its place in a sorted list, unless it is already there. */
  function Insert<K(==)>(s: seq<K>, k: K, lt: (K, K) -> bool): seq<K> {
    if s == [] then [k]
    else if s[0] == k then s
    else if lt(k, s[0]) then [k] + s
    else [s[0]] + Insert(s[1..], k, lt)
  }

  /** The distinct elements of `s` in ascending order. */
  function SortDistinct<K(==)>(s: seq<K>, lt: (K, K) -> bool): seq<K> {
    if s == [] then [] else Insert(SortDistinct(s[1..], lt), s[0], lt)
  }

  lemma {:induction false} InsertSorted<K(!new)>(s: seq<K>, k: K, lt: (K, K) -> bool)
    requires IsStrictTotalOrder(lt)
    requires StrictlySorted(s, lt)
    ensures StrictlySorted(Insert(s, k, lt), lt)
    ensures forall x :: x in Insert(s, k, lt) <==> x in s || x == k
  {
    if s == [] || s[0] == k {
    } else if lt(k, s[0]) {
      assert forall j :: 0 < j < |s| ==> lt(s[0], s[j]);
    } else {
      var tail := Insert(s[1..], k, lt);
      assert StrictlySorted(s[1..], lt);
      InsertSorted(s[1..], k, lt);
      assert forall x :: x in s[1..] ==> lt(s[0], x);
      assert lt(s[0], k);
      assert forall x :: x in tail ==> lt(s[0], x);
      var r := [s[0]] + tail;
      forall i, j | 0 <= i < j < |r| ensures lt(r[i], r[j]) {
        if i == 0 {
          assert r[j] in tail;
        } else {
          assert r[i] == tail[i - 1] && r[j] == tail[j - 1];
        }
      }
    }
  }

  lemma {:induction false} SortDistinctSpec<K(!new)>(s: seq<K>, lt: (K, K) -> bool)
    requires IsStrictTotalOrder(lt)
    ensures StrictlySorted(SortDistinct(s, lt), lt)
    ensures forall x :: x in SortDistinct(s, lt) <==> x in s
  {
    if s != [] {
      SortDistinctSpec(s[1..], lt);
      InsertSorted(SortDistinct(s[1..], lt), s[0], lt);
      assert forall x :: x in s <==> x == s[0] || x in s[1..];
    }
  }

  /** A strictly sorted list is determined by its elements. */
  lemma {:induction false} SortedUnique<K(!new)>(a: seq<K>, b: seq<K>, lt: (K, K) -> bool)
    requires IsStrictTotalOrder(lt)
    requires StrictlySorted(a, lt) && StrictlySorted(b, lt)
    requires forall x :: x in a <==> x in b
    ensures a == b
  {
    if a == [] {
      HeadIsElement(b);
    } else {
      assert b != [] by { assert a[0] in b; }
      assert b[0] in a && a[0] in b;
      assert a[0] == b[0];
      forall x ensures x in a[1..] <==> x in b[1..] {
        if x in a[1..] {
          var i :| 1 <= i < |a| && a[i] == x;
          assert lt(a[0], x);
          assert x in b && x != b[0];
          var j :| 0 <= j < |b| && b[j] == x;
          assert j != 0;
        }
        if x in b[1..] {
          var j :| 1 <= j < |b| && b[j] == x;
          assert lt(b[0], x);
          assert x in a && x != a[0];
          var i :| 0 <= i < |a| && a[i] == x;
          assert i != 0;
        }
      }
      SortedUnique(a[1..], b[1..], lt);
      assert a == [a[0]] + a[1..] && b == [b[0]] + b[1..];
    }
  }

  lemma HeadIsElement<K>(s: seq<K>)
    ensures s == [] || s[0] in s
  {
  }

  /** Python's `<` on str: lexicographic by code point, a proper prefix first. */
  predicate StrLt(a: string, b: string) {
    if a == [] then b != []
    else if b == [] then false
    else a[0] < b[0] || (a[0] == b[0] && StrLt(a[1..], b[1..]))
  }

  lemma {:induction false} StrLtIrreflexive(a: string)
    ensures !StrLt(a, a)
  {
    if a != [] { StrLtIrreflexive(a[1..]); }
  }

  lemma {:induction false} StrLtTransitive(a: string, b: string, c: string)
    requires StrLt(a, b) && StrLt(b, c)
    ensures StrLt(a, c)
  {
    if a != [] && b != [] && c != [] && a[0] == b[0] == c[0] {
      StrLtTransitive(a[1..], b[1..], c[1..]);
    }
  }

  lemma {:induction false} StrLtTotal(a: string, b: string)
    ensures a == b || StrLt(a, b) || StrLt(b, a)
  {
    if a != [] && b != [] && a[0] == b[0] {
      StrLtTotal(a[1..], b[1..]);
      if a[1..] == b[1..] {
        assert a == [a[0]] + a[1..] && b == [b[0]] + b[1..];
      }
    }
  }

  lemma StrLtIsStrictTotalOrder()
    ensures IsStrictTotalOrder(StrLt)
  {
    forall a ensures !StrLt(a, a) { StrLtIrreflexive(a); }
    forall a, b, c | StrLt(a, b) && StrLt(b, c) ensures StrLt(a, c) {
      StrLtTransitive(a, b, c);
    }
    forall a, b ensures a == b || StrLt(a, b) || StrLt(b, a) { StrLtTotal(a, b); }
  }

  /** Comparing two strings that start with equally long heads compares the
      heads first and only then the rests. */
  lemma {:induction false} StrLtConcat(p: string, q: string, p': string, q': string)
    requires |p| == |p'|
    ensures StrLt(p + q, p' + q') <==> StrLt(p, p') || (p == p' && StrLt(q, q'))
  {
    if p == [] {
      assert p + q == q && p' + q' == q';
    } else {
      var P, P' := p + q, p' + q';
      assert P[0] == p[0] && P'[0] == p'[0];
      if p[0] == p'[0] {
        assert P[1..] == p[1..] + q && P'[1..] == p'[1..] + q';
        StrLtConcat(p[1..], q, p'[1..], q');
        assert p == p' <==> p[1..] == p'[1..] by {
          assert p == [p[0]] + p[1..] && p' == [p'[0]] + p'[1..];
        }
        assert StrLt(P, P') == StrLt(P[1..], P'[1..]);
        assert StrLt(p, p') == StrLt(p[1..], p'[1..]);
      } else {
        assert p != p';
      }
    }
  }

  /** The first position of `x` in `s`. */
  function IndexOf<K(==)>(s: seq<K>, x: K): (i: nat)
    requires x in s
    ensures i < |s| && s[i] == x
    ensures forall j :: 0 <= j < i ==> s[j] != x
  {
    if s[0] == x then 0 else 1 + IndexOf(s[1..], x)
  }

  /** The columns of a concatenation: those of `a`, then the new ones of `b`
      in their order (pandas concat without sorting). */
  function Union<K(==,!new)>(a: seq<K>, b: seq<K>): (u: seq<K>)
    ensures forall x :: x in u <==> x in a || x in b
    ensures |a| <= |u| && u[..|a|] == a
    decreases |b|
  {
    if b == [] then a
    else if b[0] in a then Union(a, b[1..])
    else Union(a + [b[0]], b[1..])
  }

  /** `u` is `a` followed by members of `b` that are not in `a`, each once,
      in the order of their first occurrence in `b`. */
  predicate AppendsNew<K(==)>(a: seq<K>, b: seq<K>, u: seq<K>) {
    && |a| <= |u|
    && (forall i :: |a| <= i < |u| ==> u[i] in b && u[i] !in a)
    && (forall i, j :: |a| <= i < j < |u| ==> u[i] in b && u[j] in b && IndexOf(b, u[i]) < IndexOf(b, u[j]))
  }

  lemma {:induction false} UnionAppends<K(!new)>(a: seq<K>, b: seq<K>)
    ensures AppendsNew(a, b, Union(a, b))
    decreases |b|
  {
    if b == [] {
    } else if b[0] in a {
      UnionAppends(a, b[1..]);
      AppendsNewSkip(a, b, Union(a, b[1..]));
    } else {
      UnionAppends(a + [b[0]], b[1..]);
      AppendsNewAdd(a, b, Union(a + [b[0]], b[1..]));
    }
  }

  /** An element of `b` already in `a` adds nothing. */
  lemma AppendsNewSkip<K(!new)>(a: seq<K>, b: seq<K>, u: seq<K>)
    requires b != [] && b[0] in a && AppendsNew(a, b[1..], u)
    ensures AppendsNew(a, b, u)
  {
    assert b == [b[0]] + b[1..];
    forall i | |a| <= i < |u| ensures u[i] in b && u[i] !in a && IndexOf(b, u[i]) == 1 + IndexOf(b[1..], u[i]) {
      assert u[i] in b[1..] && u[i] !in a;
    }
  }

  /** An element of `b` not in `a` is appended first, ahead of the rest of
      `b`. */
  lemma AppendsNewAdd<K(!new)>(a: seq<K>, b: seq<K>, u: seq<K>)
    requires b != [] && b[0] !in a
    requires |a| < |u| && u[..|a| + 1] == a + [b[0]] && AppendsNew(a + [b[0]], b[1..], u)
    ensures AppendsNew(a, b, u)
  {
    var a' := a + [b[0]];
    assert b == [b[0]] + b[1..];
    assert u[|a|] == u[..|a'|][|a|] == b[0];
    forall i | |a'| <= i < |u| ensures u[i] in b && u[i] !in a' && IndexOf(b, u[i]) == 1 + IndexOf(b[1..], u[i]) {
      assert u[i] in b[1..] && u[i] !in a';
    }
    forall i | |a| <= i < |u| ensures u[i] in b && u[i] !in a {
      if i > |a| {
        assert u[i] !in a';
      }
    }
  }

  /** Union of a sequence without duplicates has no duplicates. */
  lemma UnionDistinct<K(!new)>(a: seq<K>, b: seq<K>)
    requires Distinct(a)
    ensures Distinct(Union(a, b))
  {
    var u := Union(a, b);
    UnionAppends(a, b);
    assert AppendsNew(a, b, u);
    forall i, j | 0 <= i < j < |u| ensures u[i] != u[j] {
      if j < |a| {
        assert u[i] == u[..|a|][i] && u[j] == u[..|a|][j];
      } else if i < |a| {
        assert u[i] == u[..|a|][i];
      }
    }
  }

  /** The appended part of a union with a strictly sorted `b` is strictly
      sorted. */
  lemma UnionTailSorted<K(!new)>(a: seq<K>, b: seq<K>, lt: (K, K) -> bool)
    requires StrictlySorted(b, lt)
    ensures StrictlySorted(Union(a, b)[|a|..], lt)
  {
    var u := Union(a, b);
    var tail := u[|a|..];
    UnionAppends(a, b);
    assert AppendsNew(a, b, u);
    forall i, j | 0 <= i < j < |tail| ensures lt(tail[i], tail[j]) {
      assert tail[i] == u[|a| + i] && tail[j] == u[|a| + j];
      assert u[|a| + i] in b && u[|a| + j] in b;
      var x, y := IndexOf(b, tail[i]), IndexOf(b, tail[j]);
      assert lt(b[x], b[y]);
    }
  }
}
