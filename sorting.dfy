/** The stable sort that `Array.prototype.sort` performs with a comparator,
    written as an insertion sort on values. `leq(a, b)` holds when the
    comparator returns a value `<= 0` for `(a, b)`, that is, when `a` may stay
    before `b`. */
module Sorting {

  /** `leq` orders every pair and is transitive: the comparators of the source
      are consistent in this sense. */
  ghost predicate TotalPreorder<T(!new)>(leq: (T, T) -> bool)
  {
    && (forall a, b :: leq(a, b) || leq(b, a))
    && (forall a, b, c :: leq(a, b) && leq(b, c) ==> leq(a, c))
  }

  /** Every element may stay before every later one. */
  ghost predicate SortedBy<T>(s: seq<T>, leq: (T, T) -> bool)
  {
    forall i, j :: 0 <= i < j < |s| ==> leq(s[i], s[j])
  }

  /** Inserts `x` before the first element it may precede, so that elements
      that compare equal keep their input order. */
  function Insert<T>(x: T, s: seq<T>, leq: (T, T) -> bool): (r: seq<T>)
    ensures multiset(r) == multiset(s) + multiset{x}
    ensures |r| == |s| + 1
  {
    if s == [] then [x]
    else if leq(x, s[0]) then [x] + s
    else
      assert s == [s[0]] + s[1..];
      [s[0]] + Insert(x, s[1..], leq)
  }

  /** The stable sort of `s` by `leq`. */
  function SortBy<T>(s: seq<T>, leq: (T, T) -> bool): (r: seq<T>)
    ensures multiset(r) == multiset(s)
    ensures |r| == |s|
  {
    if s == [] then []
    else
      assert s == [s[0]] + s[1..];
      Insert(s[0], SortBy(s[1..], leq), leq)
  }

  /** The tail of a sorted sequence is sorted, and its head may precede each of its elements. */
  lemma SortedTail<T>(s: seq<T>, leq: (T, T) -> bool)
    requires s != [] && SortedBy(s, leq)
    ensures SortedBy(s[1..], leq)
    ensures forall y :: y in s[1..] ==> leq(s[0], y)
  {
    forall i, j | 0 <= i < j < |s[1..]| ensures leq(s[1..][i], s[1..][j]) {
      assert s[1..][i] == s[i + 1] && s[1..][j] == s[j + 1];
    }
    forall y | y in s[1..] ensures leq(s[0], y) {
      var m :| 0 <= m < |s[1..]| && s[1..][m] == y;
      assert s[1..][m] == s[m + 1];
    }
  }

  /** A sorted sequence stays sorted behind a head that may precede all of it. */
  lemma ConsSorted<T>(h: T, t: seq<T>, leq: (T, T) -> bool)
    requires SortedBy(t, leq)
    requires forall y :: y in t ==> leq(h, y)
    ensures SortedBy([h] + t, leq)
  {
    var r := [h] + t;
    forall i, j | 0 <= i < j < |r| ensures leq(r[i], r[j]) {
      assert r[j] == t[j - 1];
      if i > 0 {
        assert r[i] == t[i - 1];
      }
    }
  }

  /** Every element of an insertion is the inserted one or an old one. */
  lemma InsertMembers<T>(x: T, s: seq<T>, leq: (T, T) -> bool, y: T)
    requires y in Insert(x, s, leq)
    ensures y == x || y in s
  {
    assert y in multiset(Insert(x, s, leq));
  }

  /** Inserting into a sorted sequence keeps it sorted. */
  lemma {:induction false} InsertSorted<T(!new)>(x: T, s: seq<T>, leq: (T, T) -> bool)
    requires TotalPreorder(leq) && SortedBy(s, leq)
    ensures SortedBy(Insert(x, s, leq), leq)
  {
    if s == [] {
      assert Insert(x, s, leq) == [x];
    } else if leq(x, s[0]) {
      forall y | y in s ensures leq(x, y) {
        var m :| 0 <= m < |s| && s[m] == y;
        if m > 0 {
          assert leq(s[0], s[m]);
        }
      }
      ConsSorted(x, s, leq);
    } else {
      SortedTail(s, leq);
      InsertSorted(x, s[1..], leq);
      var tail := Insert(x, s[1..], leq);
      forall y | y in tail ensures leq(s[0], y) {
        InsertMembers(x, s[1..], leq, y);
      }
      ConsSorted(s[0], tail, leq);
    }
  }

  /** The sort orders its result. */
  lemma {:induction false} SortBySorted<T(!new)>(s: seq<T>, leq: (T, T) -> bool)
    requires TotalPreorder(leq)
    ensures SortedBy(SortBy(s, leq), leq)
  {
    if s != [] {
      SortBySorted(s[1..], leq);
      InsertSorted(s[0], SortBy(s[1..], leq), leq);
    }
  }
}
