/**
 * The column operations the summary uses: pandas' `Series.unique()`, which keeps
 * the order of first appearance, and the count `(column == label).sum()`.
 */
module Sequences {

  /** Number of positions of `s` holding `x`: `(s == x).sum()`. */
  function Occurrences<T(==)>(s: seq<T>, x: T): (n: nat)
    ensures n == multiset(s)[x]
  {
    if s == [] then 0
    else
      assert s == s[..|s| - 1] + [s[|s| - 1]];
      Occurrences(s[..|s| - 1], x) + (if s[|s| - 1] == x then 1 else 0)
  }

  /** The index of the first `x` in `s`, as Python's `list.index`. */
  function FirstIndex<T(==)>(s: seq<T>, x: T): (k: nat)
    requires x in s
    ensures k < |s| && s[k] == x && x !in s[..k]
  {
    if s[0] == x then 0
    else
      assert s == [s[0]] + s[1..];
      var k := 1 + FirstIndex(s[1..], x);
      assert s[..k] == [s[0]] + s[1..][..k - 1];
      k
  }

  /** Appending an element does not move the first occurrence of anything already present. */
  lemma FirstIndexSnoc<T>(s: seq<T>, y: T, x: T)
    requires x in s
    ensures FirstIndex(s + [y], x) == FirstIndex(s, x)
  {
    var k, k' := FirstIndex(s, x), FirstIndex(s + [y], x);
    assert (s + [y])[..k + 1] == s[..k + 1];
  }

  ghost predicate Distinct<T>(s: seq<T>)
  {
    forall i, j :: 0 <= i < j < |s| ==> s[i] != s[j]
  }

  /**
   * `Series.unique()`: every element of `s` exactly once, nothing else, in the
   * order in which the elements first appear in `s`.
   */
  function Unique<T(==,!new)>(s: seq<T>): (u: seq<T>)
    ensures forall x :: x in u <==> x in s
    ensures Distinct(u)
    ensures forall i, j :: 0 <= i < j < |u| ==> FirstIndex(s, u[i]) < FirstIndex(s, u[j])
  {
    if s == [] then []
    else
      var front, last := s[..|s| - 1], s[|s| - 1];
      assert s == front + [last];
      var u := Unique(front);
      forall x | x in front
        ensures FirstIndex(s, x) == FirstIndex(front, x)
      {
        FirstIndexSnoc(front, last, x);
      }
      if last in u then u
      else
        assert FirstIndex(s, last) == |front|;
        u + [last]
  }

  /** Sum, over the elements of `labels`, of how often each occurs in `s`. */
  function SumOccurrences<T(==)>(labels: seq<T>, s: seq<T>): nat
  {
    if labels == [] then 0
    else SumOccurrences(labels[..|labels| - 1], s) + Occurrences(s, labels[|labels| - 1])
  }

  /** Appending `y` to `s` adds one to the sum exactly when `y` is among the distinct `labels`. */
  lemma {:induction false} SumOccurrencesSnoc<T>(labels: seq<T>, s: seq<T>, y: T)
    requires Distinct(labels)
    ensures SumOccurrences(labels, s + [y]) == SumOccurrences(labels, s) + (if y in labels then 1 else 0)
  {
    if labels != [] {
      var front, last := labels[..|labels| - 1], labels[|labels| - 1];
      assert labels == front + [last];
      SumOccurrencesSnoc(front, s, y);
      assert Occurrences(s + [y], last) == Occurrences(s, last) + (if y == last then 1 else 0) by {
        assert (s + [y])[..|s + [y]| - 1] == s;
      }
      assert y in labels <==> y in front || y == last;
      assert y == last ==> y !in front;
    }
  }

  /** Appending an element to `s` appends it to `Unique(s)` exactly when it is new. */
  lemma UniqueSnoc<T(!new)>(s: seq<T>, y: T)
    ensures Unique(s + [y]) == if y in s then Unique(s) else Unique(s) + [y]
  {
    assert (s + [y])[..|s|] == s;
  }

  /** Counting every distinct element of `s` once accounts for every position of `s`. */
  lemma {:induction false} SumOccurrencesUnique<T(!new)>(s: seq<T>)
    ensures SumOccurrences(Unique(s), s) == |s|
  {
    if s != [] {
      var front, last := s[..|s| - 1], s[|s| - 1];
      assert s == front + [last];
      var u := Unique(front);
      SumOccurrencesUnique(front);
      SumOccurrencesSnoc(u, front, last);
      UniqueSnoc(front, last);
      if last !in front {
        assert (u + [last])[..|u|] == u;
        assert Occurrences(front, last) == 0;
      }
    }
  }
}
