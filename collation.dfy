/**
 * `ORDER BY keyword`: the store's binary collation compares keywords
 * character by character by code point, a proper prefix sorting first.
 */
module Collation {
  import opened Models

  /** Strict lexicographic order on keywords. */
  predicate KeyLess(a: string, b: string)
    decreases |a|
  {
    |b| > 0 && (|a| == 0 || a[0] < b[0] || (a[0] == b[0] && KeyLess(a[1..], b[1..])))
  }

  predicate KeyLeq(a: string, b: string) { a == b || KeyLess(a, b) }

  lemma {:induction false} KeyLessIrreflexive(a: string)
    ensures !KeyLess(a, a)
    decreases |a|
  {
    if |a| > 0 {
      KeyLessIrreflexive(a[1..]);
    }
  }

  lemma {:induction false} KeyLessTransitive(a: string, b: string, c: string)
    requires KeyLess(a, b) && KeyLess(b, c)
    ensures KeyLess(a, c)
    decreases |a|
  {
    if |a| > 0 && a[0] == b[0] && b[0] == c[0] {
      KeyLessTransitive(a[1..], b[1..], c[1..]);
    }
  }

  /** Two different keywords are always ordered one way or the other. */
  lemma {:induction false} KeyLessTotal(a: string, b: string)
    requires a != b
    ensures KeyLess(a, b) || KeyLess(b, a)
    decreases |a|
  {
    if |a| > 0 && |b| > 0 && a[0] == b[0] {
      assert a == [a[0]] + a[1..] && b == [b[0]] + b[1..];
      KeyLessTotal(a[1..], b[1..]);
    }
  }

  lemma KeyLeqTransitive(a: string, b: string, c: string)
    requires KeyLeq(a, b) && KeyLeq(b, c)
    ensures KeyLeq(a, c)
  {
    if a != b && b != c {
      KeyLessTransitive(a, b, c);
    }
  }

  /** Ascending by keyword: no later row has a smaller keyword than an earlier one. */
  ghost predicate SortedByKeyword(s: seq<Term>) {
    forall i, j :: 0 <= i < j < |s| ==> KeyLeq(s[i].keyword, s[j].keyword)
  }

  ghost predicate StrictlyAscending(s: seq<Term>) {
    forall i, j :: 0 <= i < j < |s| ==> KeyLess(s[i].keyword, s[j].keyword)
  }

  function InsertByKeyword(t: Term, s: seq<Term>): (r: seq<Term>)
    ensures |r| == |s| + 1
  {
    if s == [] then [t]
    else if KeyLeq(t.keyword, s[0].keyword) then [t] + s
    else [s[0]] + InsertByKeyword(t, s[1..])
  }

  /** The rows of a table, ordered ascending by keyword. */
  function SortByKeyword(s: seq<Term>): (r: seq<Term>)
    ensures |r| == |s|
  {
    if s == [] then [] else InsertByKeyword(s[0], SortByKeyword(s[1..]))
  }

  /** Every row of `s` has a keyword at least `k`. */
  ghost predicate LowerBound(k: string, s: seq<Term>) {
    forall j :: 0 <= j < |s| ==> KeyLeq(k, s[j].keyword)
  }

  lemma ConsSorted(t: Term, s: seq<Term>)
    requires LowerBound(t.keyword, s) && SortedByKeyword(s)
    ensures SortedByKeyword([t] + s)
  {
    var r := [t] + s;
    forall i, j | 0 <= i < j < |r| ensures KeyLeq(r[i].keyword, r[j].keyword) {
      if i > 0 {
        assert r[i] == s[i - 1] && r[j] == s[j - 1];
      }
    }
  }

  lemma {:induction false} InsertByKeywordMultiset(t: Term, s: seq<Term>)
    ensures multiset(InsertByKeyword(t, s)) == multiset(s) + multiset{t}
  {
    if s != [] && !KeyLeq(t.keyword, s[0].keyword) {
      InsertByKeywordMultiset(t, s[1..]);
      assert s == [s[0]] + s[1..];
    }
  }

  lemma {:induction false} InsertKeepsLowerBound(k: string, t: Term, s: seq<Term>)
    requires LowerBound(k, s) && KeyLeq(k, t.keyword)
    ensures LowerBound(k, InsertByKeyword(t, s))
  {
    if s != [] && !KeyLeq(t.keyword, s[0].keyword) {
      InsertKeepsLowerBound(k, t, s[1..]);
    }
  }

  lemma {:induction false} InsertByKeywordSorted(t: Term, s: seq<Term>)
    requires SortedByKeyword(s)
    ensures SortedByKeyword(InsertByKeyword(t, s))
  {
    if s == [] {
    } else if KeyLeq(t.keyword, s[0].keyword) {
      forall j | 0 <= j < |s| ensures KeyLeq(t.keyword, s[j].keyword) {
        KeyLeqTransitive(t.keyword, s[0].keyword, s[j].keyword);
      }
      ConsSorted(t, s);
    } else {
      InsertByKeywordSorted(t, s[1..]);
      KeyLessTotal(t.keyword, s[0].keyword);
      InsertKeepsLowerBound(s[0].keyword, t, s[1..]);
      ConsSorted(s[0], InsertByKeyword(t, s[1..]));
    }
  }

  /** Sorting returns every row exactly once, ascending by keyword. */
  lemma {:induction false} SortByKeywordCorrect(s: seq<Term>)
    ensures SortedByKeyword(SortByKeyword(s))
    ensures multiset(SortByKeyword(s)) == multiset(s)
  {
    if s != [] {
      SortByKeywordCorrect(s[1..]);
      InsertByKeywordSorted(s[0], SortByKeyword(s[1..]));
      InsertByKeywordMultiset(s[0], SortByKeyword(s[1..]));
      assert s == [s[0]] + s[1..];
    }
  }

  /** With pairwise different keywords, ascending order is strict. */
  lemma SortedDistinctIsStrict(s: seq<Term>)
    requires SortedByKeyword(s)
    requires forall i, j :: 0 <= i < j < |s| ==> s[i].keyword != s[j].keyword
    ensures StrictlyAscending(s)
  {
  }
}
