/**
 * Sequence helpers shared by the judges.  The judges sort with the host
 * language's library sort (Python's `sorted`, C++'s `std::sort`); only the
 * result matters to them, so sorting is a function: sorted by a strict total
 * order, and a permutation.
 */
module Sequences {

  ghost predicate StrictTotalOrder<T(!new)>(less: (T, T) -> bool)
  {
    (forall x :: !less(x, x)) &&
    (forall x, y, z :: less(x, y) && less(y, z) ==> less(x, z)) &&
    (forall x, y :: x == y || less(x, y) || less(y, x))
  }

  predicate SortedBy<T>(s: seq<T>, less: (T, T) -> bool)
  {
    forall i, j | 0 <= i < j < |s| :: !less(s[j], s[i])
  }

  function InsertBy<T(!new)>(x: T, s: seq<T>, less: (T, T) -> bool): (r: seq<T>)
    requires StrictTotalOrder(less) && SortedBy(s, less)
    ensures SortedBy(r, less) && multiset(r) == multiset(s) + multiset{x}
  {
    if s == [] then
      [x]
    else if less(s[0], x) then
      var t := InsertBy(x, s[1..], less);
      ConsSorted(s, x, t, less);
      [s[0]] + t
    else
      [x] + s
  }

  /** The first element of a sorted list goes before the rest with x inserted. */
  lemma ConsSorted<T(!new)>(s: seq<T>, x: T, t: seq<T>, less: (T, T) -> bool)
    requires StrictTotalOrder(less) && SortedBy(s, less) && s != [] && less(s[0], x)
    requires SortedBy(t, less) && multiset(t) == multiset(s[1..]) + multiset{x}
    ensures SortedBy([s[0]] + t, less) && multiset([s[0]] + t) == multiset(s) + multiset{x}
  {
    assert s == [s[0]] + s[1..];
    forall k | 0 <= k < |t|
      ensures !less(t[k], s[0])
    {
      assert t[k] in multiset(t);
      if t[k] != x {
        assert t[k] in multiset(s[1..]);
        var m :| 0 <= m < |s[1..]| && s[1..][m] == t[k];
        assert s[m + 1] == t[k];
      }
    }
    var r := [s[0]] + t;
    forall i, j | 0 <= i < j < |r|
      ensures !less(r[j], r[i])
    {
      if i > 0 {
        assert r[i] == t[i - 1] && r[j] == t[j - 1];
      } else {
        assert r[j] == t[j - 1];
      }
    }
  }

  /** Sorted by `less`, and the same elements with the same multiplicities. */
  function SortBy<T(!new)>(s: seq<T>, less: (T, T) -> bool): (r: seq<T>)
    requires StrictTotalOrder(less)
    ensures SortedBy(r, less) && multiset(r) == multiset(s) && |r| == |s|
  {
    if s == [] then
      []
    else
      assert s == [s[0]] + s[1..];
      InsertBy(s[0], SortBy(s[1..], less), less)
  }

  function Reverse<T>(s: seq<T>): (r: seq<T>)
    ensures |r| == |s| && forall i | 0 <= i < |s| :: r[i] == s[|s| - 1 - i]
  {
    if s == [] then [] else Reverse(s[1..]) + [s[0]]
  }

  lemma ReverseReverse<T>(s: seq<T>)
    ensures Reverse(Reverse(s)) == s
  {
    assert forall i | 0 <= i < |s| :: Reverse(Reverse(s))[i] == s[i];
  }

  /** Dropping the last element of a reversal drops the first element of the original. */
  lemma ReverseDropLast<T>(s: seq<T>)
    requires |s| >= 1
    ensures Reverse(s)[|s| - 1] == s[0] && Reverse(s)[..|s| - 1] == Reverse(s[1..])
  {
    assert forall i | 0 <= i < |s| - 1 :: Reverse(s)[..|s| - 1][i] == Reverse(s[1..])[i];
  }

  predicate IntLess(a: int, b: int)
  {
    a < b
  }

  lemma IntLessTotal()
    ensures StrictTotalOrder(IntLess)
  {
  }

  predicate Distinct<T(==)>(s: seq<T>)
  {
    forall i, j | 0 <= i < j < |s| :: s[i] != s[j]
  }

  /** A sequence has as many distinct elements as entries exactly when no entry repeats. */
  lemma {:induction false} DistinctCard<T>(s: seq<T>)
    ensures |set x | x in s| == |s| <==> Distinct(s)
    ensures |set x | x in s| <= |s|
  {
    if s != [] {
      var t := s[1..];
      DistinctCard(t);
      var st := set x | x in t;
      assert (set x | x in s) == st + {s[0]};
      if s[0] in t {
        var j :| 0 <= j < |t| && t[j] == s[0];
        assert s[0] == s[j + 1];
      } else {
        if Distinct(t) {
          forall i, j | 0 <= i < j < |s|
            ensures s[i] != s[j]
          {
            if i > 0 {
              assert s[i] == t[i - 1] && s[j] == t[j - 1];
            } else {
              assert s[j] == t[j - 1];
            }
          }
        }
        if Distinct(s) {
          forall i, j | 0 <= i < j < |t|
            ensures t[i] != t[j]
          {
            assert t[i] == s[i + 1] && t[j] == s[j + 1];
          }
        }
      }
    }
  }

  /** A value occurs at least twice exactly when two different positions hold it. */
  lemma {:induction false} TwoOccurrences<T>(s: seq<T>, x: T)
    ensures multiset(s)[x] >= 2 <==> exists p, q | 0 <= p < q < |s| :: s[p] == x && s[q] == x
  {
    if s != [] {
      var t := s[1..];
      assert s == [s[0]] + t;
      assert multiset(s)[x] == (if s[0] == x then 1 else 0) + multiset(t)[x];
      TwoOccurrences(t, x);
      if multiset(s)[x] >= 2 {
        if s[0] == x {
          assert x in multiset(t);
          var j :| 0 <= j < |t| && t[j] == x;
          assert s[0] == x && s[j + 1] == x;
        } else {
          var p, q :| 0 <= p < q < |t| && t[p] == x && t[q] == x;
          assert s[p + 1] == x && s[q + 1] == x;
        }
      }
      if exists p, q | 0 <= p < q < |s| :: s[p] == x && s[q] == x {
        var p, q :| 0 <= p < q < |s| && s[p] == x && s[q] == x;
        if p == 0 {
          assert t[q - 1] == x;
          assert x in multiset(t);
        } else {
          assert t[p - 1] == x && t[q - 1] == x;
        }
      }
    }
  }

  /** Dropping the entry at position k drops one copy of it from the multiset. */
  lemma MultisetRemove<T>(y: seq<T>, k: nat)
    requires k < |y|
    ensures multiset(y[..k] + y[k + 1..]) == multiset(y) - multiset{y[k]}
  {
    assert y == y[..k] + [y[k]] + y[k + 1..];
    assert multiset(y) == multiset(y[..k]) + multiset{y[k]} + multiset(y[k + 1..]);
  }

  /** Nothing in a sorted sequence goes before its first element. */
  lemma SortedHeadLeast<T(!new)>(a: seq<T>, x: T, less: (T, T) -> bool)
    requires StrictTotalOrder(less) && SortedBy(a, less) && x in multiset(a)
    ensures a != [] && !less(x, a[0])
  {
    var k :| 0 <= k < |a| && a[k] == x;
    if k > 0 {
      assert !less(a[k], a[0]);
    }
  }

  lemma SortedTail<T>(a: seq<T>, less: (T, T) -> bool)
    requires SortedBy(a, less) && a != []
    ensures SortedBy(a[1..], less)
  {
    forall p, q | 0 <= p < q < |a[1..]|
      ensures !less(a[1..][q], a[1..][p])
    {
      assert a[1..][q] == a[q + 1] && a[1..][p] == a[p + 1];
    }
  }

  /** Two sorted sequences with the same elements are equal: sorting has one result. */
  lemma {:induction false} SortedUnique<T(!new)>(a: seq<T>, b: seq<T>, less: (T, T) -> bool)
    requires StrictTotalOrder(less) && SortedBy(a, less) && SortedBy(b, less)
    requires multiset(a) == multiset(b)
    ensures a == b
    decreases |a|
  {
    assert |a| == |multiset(a)| == |multiset(b)| == |b|;
    if a != [] {
      assert a[0] in multiset(b) && b[0] in multiset(a);
      SortedHeadLeast(b, a[0], less);
      SortedHeadLeast(a, b[0], less);
      assert a == [a[0]] + a[1..] && b == [b[0]] + b[1..];
      assert multiset(a[1..]) == multiset(a) - multiset{a[0]};
      assert multiset(b[1..]) == multiset(b) - multiset{b[0]};
      SortedTail(a, less);
      SortedTail(b, less);
      SortedUnique(a[1..], b[1..], less);
    }
  }

  /** Sorting two sequences gives the same result exactly when they hold the same elements. */
  lemma SortByEqual<T(!new)>(a: seq<T>, b: seq<T>, less: (T, T) -> bool)
    requires StrictTotalOrder(less)
    ensures SortBy(a, less) == SortBy(b, less) <==> multiset(a) == multiset(b)
  {
    if multiset(a) == multiset(b) {
      SortedUnique(SortBy(a, less), SortBy(b, less), less);
    }
  }

  function Sum(s: seq<int>): int
  {
    if s == [] then 0 else Sum(s[..|s| - 1]) + s[|s| - 1]
  }

  /** Adding d to one entry adds d to the sum. */
  lemma {:induction false} SumUpdate(s: seq<int>, p: nat, d: int)
    requires p < |s|
    ensures Sum(s[p := s[p] + d]) == Sum(s) + d
  {
    var t := s[p := s[p] + d];
    if p < |s| - 1 {
      assert t[..|t| - 1] == s[..|s| - 1][p := s[p] + d];
      SumUpdate(s[..|s| - 1], p, d);
    } else {
      assert t[..|t| - 1] == s[..|s| - 1];
    }
  }
}
