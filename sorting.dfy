/**
 * Python's `sorted` with a key: an insertion sort parameterised by the
 * relation "may stand before".
 */
module Sorting {

  /** `before` is total and transitive, as comparing keys with `<=` is. */
  ghost predicate TotalPreorder<T(!new)>(before: (T, T) -> bool) {
    && (forall a, b :: before(a, b) || before(b, a))
    && (forall a, b, c :: before(a, b) && before(b, c) ==> before(a, c))
  }

  ghost predicate SortedBy<T>(s: seq<T>, before: (T, T) -> bool) {
    forall i, j :: 0 <= i < j < |s| ==> before(s[i], s[j])
  }

  /**
   * Puts `x` in front of the first element it may stand before; on a tie `x`
   * goes first.
   */
  function Insert<T(==)>(x: T, s: seq<T>, before: (T, T) -> bool): (r: seq<T>)
    ensures multiset(r) == multiset(s) + multiset{x}
    decreases |s|
  {
    if s == [] then [x]
    else if before(x, s[0]) then [x] + s
    else
      assert s == [s[0]] + s[1..];
      [s[0]] + Insert(x, s[1..], before)
  }

  /** The elements of `s` reordered by `before`, a permutation of `s`. */
  function SortBy<T(==)>(s: seq<T>, before: (T, T) -> bool): (r: seq<T>)
    ensures multiset(r) == multiset(s)
    ensures |r| == |s|
    decreases |s|
  {
    if s == [] then []
    else
      assert s == [s[0]] + s[1..];
      Insert(s[0], SortBy(s[1..], before), before)
  }

  lemma {:induction false} InsertSorted<T(!new)>(x: T, s: seq<T>, before: (T, T) -> bool)
    requires TotalPreorder(before) && SortedBy(s, before)
    ensures SortedBy(Insert(x, s, before), before)
    decreases |s|
  {
    if s != [] && !before(x, s[0]) {
      InsertSorted(x, s[1..], before);
      InsertedBehindHead(x, s, before);
      ConsSorted(s[0], Insert(x, s[1..], before), before);
    } else if s != [] {
      forall y | y in s ensures before(x, y) {
        var k :| 0 <= k < |s| && s[k] == y;
        if k > 0 {
          assert before(s[0], s[k]);
        }
      }
      ConsSorted(x, s, before);
    }
  }

  /** When `x` goes behind the head, every element of the rest may stand behind the head. */
  lemma InsertedBehindHead<T(!new)>(x: T, s: seq<T>, before: (T, T) -> bool)
    requires TotalPreorder(before) && SortedBy(s, before) && s != [] && !before(x, s[0])
    ensures forall y :: y in Insert(x, s[1..], before) ==> before(s[0], y)
  {
    var tail := Insert(x, s[1..], before);
    assert before(s[0], x);
    forall y | y in tail ensures before(s[0], y) {
      assert y in multiset(tail);
      if y != x {
        assert y in multiset(s[1..]);
        var k :| 0 <= k < |s[1..]| && s[1..][k] == y;
        assert s[k + 1] == y;
      }
    }
  }

  /** An element that may stand before all of a sorted sequence can head it. */
  lemma ConsSorted<T>(h: T, t: seq<T>, before: (T, T) -> bool)
    requires SortedBy(t, before) && forall y :: y in t ==> before(h, y)
    ensures SortedBy([h] + t, before)
  {
    var r := [h] + t;
    forall i, j | 0 <= i < j < |r| ensures before(r[i], r[j]) {
      if i == 0 {
        assert r[j] == t[j - 1];
      } else {
        assert r[i] == t[i - 1] && r[j] == t[j - 1];
      }
    }
  }

  /** The result of the sort is ordered by `before`. */
  lemma {:induction false} SortBySorted<T(!new)>(s: seq<T>, before: (T, T) -> bool)
    requires TotalPreorder(before)
    ensures SortedBy(SortBy(s, before), before)
    decreases |s|
  {
    if s != [] {
      SortBySorted(s[1..], before);
      InsertSorted(s[0], SortBy(s[1..], before), before);
    }
  }
}
