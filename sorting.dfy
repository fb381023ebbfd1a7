/** `Array.prototype.sort` with a comparator. The language requires the
    sort to be stable, so its result is fixed by the comparator: it is the
    stable insertion sort given here. `le(a, b)` holds when the comparator
    does not put `b` before `a` (its value on `(a, b)` is at most 0). */
module Sorting {

  ghost predicate TotalPreorder<T(!new)>(le: (T, T) -> bool) {
    && (forall a, b :: le(a, b) || le(b, a))
    && (forall a, b, c :: le(a, b) && le(b, c) ==> le(a, c))
  }

  ghost predicate SortedBy<T>(s: seq<T>, le: (T, T) -> bool) {
    forall i, j :: 0 <= i < j < |s| ==> le(s[i], s[j])
  }

  /** Inserts `x` in front of the first element that is not below it, so that
      `x` stays ahead of the elements that compare equal to it. */
  function Insert<T>(x: T, s: seq<T>, le: (T, T) -> bool): (r: seq<T>)
    ensures multiset(r) == multiset(s) + multiset{x}
    ensures |r| == |s| + 1
  {
    if s == [] || le(x, s[0]) then [x] + s
    else
      var tail := Insert(x, s[1..], le);
      assert s == [s[0]] + s[1..];
      [s[0]] + tail
  }

  /** The stable sort of `s` by `le`. */
  function SortBy<T>(s: seq<T>, le: (T, T) -> bool): (r: seq<T>)
    ensures multiset(r) == multiset(s)
    ensures |r| == |s|
  {
    if s == [] then []
    else
      assert s == [s[0]] + s[1..];
      Insert(s[0], SortBy(s[1..], le), le)
  }

  lemma {:induction false} InsertSorted<T(!new)>(x: T, s: seq<T>, le: (T, T) -> bool)
    requires TotalPreorder(le)
    requires SortedBy(s, le)
    ensures SortedBy(Insert(x, s, le), le)
  {
    if s == [] || le(x, s[0]) {
    } else {
      InsertSorted(x, s[1..], le);
      var tail := Insert(x, s[1..], le);
      forall j | 0 <= j < |tail| ensures le(s[0], tail[j]) {
        assert tail[j] in multiset(tail);
        assert tail[j] == x || tail[j] in multiset(s[1..]);
        if tail[j] != x {
          assert tail[j] in s[1..];
        }
      }
    }
  }

  /** The sort orders its output by `le`; with `SortBy`'s own ensures, it is
      a sorted permutation of its input. */
  lemma {:induction false} SortBySorted<T(!new)>(s: seq<T>, le: (T, T) -> bool)
    requires TotalPreorder(le)
    ensures SortedBy(SortBy(s, le), le)
  {
    if s != [] {
      SortBySorted(s[1..], le);
      InsertSorted(s[0], SortBy(s[1..], le), le);
    }
  }

  /** `x` is ordered before `y` by `le1`, and by `le2` when `le1` ties them. */
  ghost predicate LexLe<T>(le1: (T, T) -> bool, le2: (T, T) -> bool, x: T, y: T) {
    le1(x, y) && (le1(y, x) ==> le2(x, y))
  }

  ghost predicate SortedLex<T>(s: seq<T>, le1: (T, T) -> bool, le2: (T, T) -> bool) {
    forall i, j :: 0 <= i < j < |s| ==> LexLe(le1, le2, s[i], s[j])
  }

  lemma {:induction false} InsertLex<T(!new)>(x: T, s: seq<T>, le1: (T, T) -> bool, le2: (T, T) -> bool)
    requires TotalPreorder(le1)
    requires SortedLex(s, le1, le2)
    requires forall y :: y in s ==> le2(x, y)
    ensures SortedLex(Insert(x, s, le1), le1, le2)
  {
    if s == [] || le1(x, s[0]) {
      var r := [x] + s;
      forall i, j | 0 <= i < j < |r| ensures LexLe(le1, le2, r[i], r[j]) {
        if i == 0 {
          assert r[j] == s[j - 1];
          if j - 1 > 0 {
            assert LexLe(le1, le2, s[0], s[j - 1]);
          }
        } else {
          assert r[i] == s[i - 1] && r[j] == s[j - 1];
        }
      }
    } else {
      InsertLex(x, s[1..], le1, le2);
      var tail := Insert(x, s[1..], le1);
      var r := [s[0]] + tail;
      forall j | 0 <= j < |tail| ensures LexLe(le1, le2, s[0], tail[j]) {
        assert tail[j] in multiset(tail);
        if tail[j] != x {
          assert tail[j] in multiset(s[1..]);
          var k :| 0 <= k < |s[1..]| && s[1..][k] == tail[j];
          assert s[k + 1] == tail[j];
        }
      }
      forall i, j | 0 <= i < j < |r| ensures LexLe(le1, le2, r[i], r[j]) {
        if i == 0 {
          assert r[j] == tail[j - 1];
        } else {
          assert r[i] == tail[i - 1] && r[j] == tail[j - 1];
        }
      }
    }
  }

  /** Stability: sorting by `le1` a sequence already sorted by `le2` leaves
      it sorted by `le1` first and by `le2` among elements `le1` ties. */
  lemma {:induction false} SortByAfterSorted<T(!new)>(s: seq<T>, le1: (T, T) -> bool, le2: (T, T) -> bool)
    requires TotalPreorder(le1)
    requires SortedBy(s, le2)
    ensures SortedLex(SortBy(s, le1), le1, le2)
  {
    if s != [] {
      var rest := s[1..];
      assert SortedBy(rest, le2) by {
        forall i, j | 0 <= i < j < |rest| ensures le2(rest[i], rest[j]) {
          assert rest[i] == s[i + 1] && rest[j] == s[j + 1];
        }
      }
      SortByAfterSorted(rest, le1, le2);
      var sorted := SortBy(rest, le1);
      forall y | y in sorted ensures le2(s[0], y) {
        assert y in multiset(sorted);
        assert y in multiset(rest);
        var k :| 0 <= k < |rest| && rest[k] == y;
        assert s[k + 1] == y;
      }
      InsertLex(s[0], sorted, le1, le2);
    }
  }

  lemma SortedTail<T>(s: seq<T>, le: (T, T) -> bool)
    requires s != [] && SortedBy(s, le)
    ensures SortedBy(s[1..], le)
  {
    forall i, j | 0 <= i < j < |s[1..]| ensures le(s[1..][i], s[1..][j]) {
      assert s[1..][i] == s[i + 1] && s[1..][j] == s[j + 1];
    }
  }

  /** The first element of a sorted sequence is below every element of it. */
  lemma SortedHead<T>(s: seq<T>, le: (T, T) -> bool, y: T)
    requires s != [] && SortedBy(s, le) && y in multiset(s) && y != s[0]
    ensures le(s[0], y)
  {
    var k :| 0 <= k < |s| && s[k] == y;
  }

  lemma SortedSameHead<T>(a: seq<T>, b: seq<T>, le: (T, T) -> bool)
    requires a != [] && b != [] && SortedBy(a, le) && SortedBy(b, le)
    requires multiset(a) == multiset(b)
    requires le(a[0], b[0]) && le(b[0], a[0]) ==> a[0] == b[0]
    ensures a[0] == b[0]
  {
    var a0, b0 := a[0], b[0];
    assert a0 in multiset(b) && b0 in multiset(a);
    if a0 != b0 {
      SortedHead(b, le, a0);
      SortedHead(a, le, b0);
    }
  }

  /** Two sorted permutations of each other are equal when `le` never ties
      two distinct elements of them. */
  lemma {:induction false} SortedUnique<T(!new)>(a: seq<T>, b: seq<T>, le: (T, T) -> bool)
    requires SortedBy(a, le) && SortedBy(b, le)
    requires multiset(a) == multiset(b)
    requires forall x, y :: x in a && y in a && le(x, y) && le(y, x) ==> x == y
    ensures a == b
  {
    if a != [] {
      assert |b| == |a| by {
        assert |multiset(a)| == |a| && |multiset(b)| == |b|;
      }
      assert b[0] in multiset(a);
      assert b[0] in a;
      SortedSameHead(a, b, le);
      assert multiset(a[1..]) == multiset(a) - multiset{a[0]} by {
        assert a == [a[0]] + a[1..];
      }
      assert multiset(b[1..]) == multiset(b) - multiset{b[0]} by {
        assert b == [b[0]] + b[1..];
      }
      SortedTail(a, le);
      SortedTail(b, le);
      SortedUnique(a[1..], b[1..], le);
      assert a == [a[0]] + a[1..] && b == [b[0]] + b[1..];
    }
  }
}
