/**
 * The geometry of the Rural Planning judge: the contestant lists the fence
 * posts in an order, the posts must form a simple polygon, and its area must
 * be more than half the area of the posts' convex hull.  Points are integer
 * pairs compared as Python compares tuples.
 */
module RuralPlanning {
  import opened Wrappers
  import opened JudgeUtils
  import opened Sequences

  type Point = (int, int)
  type Segment = (Point, Point)

  function Sign(x: int): (s: int)
    ensures -1 <= s <= 1 && s * x >= 0 && (s == 0 <==> x == 0)
  {
    if x < 0 then -1 else if x == 0 then 0 else 1
  }

  function Minus(p: Point, q: Point): Point
  {
    (p.0 - q.0, p.1 - q.1)
  }

  function CrossProduct(p: Point, q: Point): int
  {
    p.0 * q.1 - p.1 * q.0
  }

  /** Twice the signed area of the triangle a, b, c: positive when c lies left of a->b. */
  function Turn(a: Point, b: Point, c: Point): int
  {
    CrossProduct(Minus(b, a), Minus(c, a))
  }

  function Abs(x: int): nat
  {
    if x < 0 then -x else x
  }

  /** Python's tuple order on points. */
  predicate PointLess(p: Point, q: Point)
  {
    p.0 < q.0 || (p.0 == q.0 && p.1 < q.1)
  }

  lemma PointLessTotal()
    ensures StrictTotalOrder(PointLess)
  {
  }

  // ---------------------------------------------------------------------
  // Convex hull (Andrew's monotone chain)
  // ---------------------------------------------------------------------

  /** Every three consecutive points make a strict left turn. */
  predicate LeftTurns(h: seq<Point>)
  {
    forall k | 0 <= k && k + 2 < |h| :: Turn(h[k], h[k + 1], h[k + 2]) > 0
  }

  /** `h` is `points` restricted to the strictly increasing positions `idx`, all below `bound`. */
  ghost predicate Picks(h: seq<Point>, idx: seq<nat>, points: seq<Point>, bound: nat)
  {
    |idx| == |h| &&
    (forall k | 0 <= k < |idx| :: idx[k] < bound && idx[k] < |points| && h[k] == points[idx[k]]) &&
    (forall k, l | 0 <= k < l < |idx| :: idx[k] < idx[l])
  }

  lemma PicksPop(h: seq<Point>, idx: seq<nat>, points: seq<Point>, bound: nat)
    requires Picks(h, idx, points, bound) && LeftTurns(h) && |h| >= 1
    ensures Picks(h[..|h| - 1], idx[..|idx| - 1], points, bound) && LeftTurns(h[..|h| - 1])
  {
  }

  lemma PicksPush(h: seq<Point>, idx: seq<nat>, points: seq<Point>, i: nat)
    requires Picks(h, idx, points, i) && LeftTurns(h) && i < |points|
    requires |h| < 2 || Turn(h[|h| - 2], h[|h| - 1], points[i]) > 0
    ensures Picks(h + [points[i]], idx + [i], points, i + 1) && LeftTurns(h + [points[i]])
  {
    var h' := h + [points[i]];
    forall k | 0 <= k && k + 2 < |h'|
      ensures Turn(h'[k], h'[k + 1], h'[k + 2]) > 0
    {
      if k + 2 < |h| {
        assert h'[k] == h[k] && h'[k + 1] == h[k + 1] && h'[k + 2] == h[k + 2];
      }
    }
  }

  /**
   * One half of the hull: keeps a chain of strict left turns, popping the
   * last point while it does not turn left towards the next input point.
   * The chain starts at the first input point and ends at the last one.
   */
  method HalfConvexHull(points: seq<Point>) returns (hull: seq<Point>, ghost idx: seq<nat>)
    ensures |points| == 0 <==> hull == []
    ensures |points| > 0 ==> hull[0] == points[0] && hull[|hull| - 1] == points[|points| - 1]
    ensures LeftTurns(hull) && Picks(hull, idx, points, |points|)
  {
    hull, idx := [], [];
    for i := 0 to |points|
      invariant i == 0 <==> hull == []
      invariant i > 0 ==> hull[0] == points[0] && hull[|hull| - 1] == points[i - 1]
      invariant LeftTurns(hull) && Picks(hull, idx, points, i)
    {
      hull, idx := HullPush(hull, idx, points, i);
    }
  }

  /** One round of HalfConvexHull: pops the points that would not turn left, then appends point i. */
  method HullPush(hull0: seq<Point>, ghost idx0: seq<nat>, points: seq<Point>, i: nat) returns (hull: seq<Point>, ghost idx: seq<nat>)
    requires i < |points|
    requires i == 0 <==> hull0 == []
    requires i > 0 ==> hull0[0] == points[0]
    requires LeftTurns(hull0) && Picks(hull0, idx0, points, i)
    ensures |hull| >= 1 && hull[0] == points[0] && hull[|hull| - 1] == points[i]
    ensures LeftTurns(hull) && Picks(hull, idx, points, i + 1)
  {
    hull, idx := hull0, idx0;
    var p := points[i];
    while |hull| >= 2 && CrossProduct(Minus(hull[|hull| - 1], hull[|hull| - 2]), Minus(p, hull[|hull| - 2])) <= 0
      invariant i == 0 ==> hull == []
      invariant i > 0 ==> |hull| >= 1 && hull[0] == points[0]
      invariant LeftTurns(hull) && Picks(hull, idx, points, i)
    {
      PicksPop(hull, idx, points, i);
      hull, idx := hull[..|hull| - 1], idx[..|idx| - 1];
    }
    PicksPush(hull, idx, points, i);
    hull, idx := hull + [p], idx + [i];
  }

  /** What ConvexHull promises: the lower chain followed by the upper chain, each without its last point. */
  ghost predicate HullChains(hull: seq<Point>, lower: seq<Point>, upper: seq<Point>, points: seq<Point>)
  {
    |lower| >= 1 && |upper| >= 1 &&
    hull == lower[..|lower| - 1] + upper[..|upper| - 1] &&
    LeftTurns(lower) && LeftTurns(upper) &&
    lower[0] == upper[|upper| - 1] && lower[|lower| - 1] == upper[0] &&
    lower[0] in points && lower[|lower| - 1] in points &&
    (forall q | q in points :: !PointLess(q, lower[0]) && !PointLess(lower[|lower| - 1], q)) &&
    (forall q | q in lower || q in upper :: q in points)
  }

  /**
   * The convex hull counter-clockwise from the least point: the lower chain
   * over the sorted points, then the upper chain over them reversed.  The
   * source pops from the lower chain, so it fails on an empty input.
   */
  method ConvexHull(points: seq<Point>) returns (hull: seq<Point>, ghost lower: seq<Point>, ghost upper: seq<Point>)
    requires |points| >= 1
    ensures HullChains(hull, lower, upper, points)
  {
    PointLessTotal();
    var sorted := SortBy(points, PointLess);
    ghost var idx1, idx2;
    var low, up;
    low, idx1 := HalfConvexHull(sorted);
    hull := low[..|low| - 1];
    var reversed := Reverse(sorted);
    up, idx2 := HalfConvexHull(reversed);
    hull := hull + up;
    hull := hull[..|hull| - 1];
    lower, upper := low, up;
    assert hull == lower[..|lower| - 1] + upper[..|upper| - 1];
    PicksFrom(lower, idx1, sorted, |sorted|);
    PicksFrom(upper, idx2, reversed, |reversed|);
    ReverseSameElements(sorted);
    SortedEnds(points, sorted);
  }

  /** The points of a chain are input points. */
  lemma PicksFrom(h: seq<Point>, idx: seq<nat>, points: seq<Point>, bound: nat)
    requires Picks(h, idx, points, bound)
    ensures forall q | q in h :: q in points
  {
    forall q | q in h ensures q in points {
      var k :| 0 <= k < |h| && h[k] == q;
      assert points[idx[k]] == q;
    }
  }

  lemma ReverseSameElements(s: seq<Point>)
    ensures forall q | q in Reverse(s) :: q in s
  {
    forall q | q in Reverse(s) ensures q in s {
      var k :| 0 <= k < |s| && Reverse(s)[k] == q;
      assert s[|s| - 1 - k] == q;
    }
  }

  /** The sorted points hold the input points, the least first and the greatest last. */
  lemma SortedEnds(points: seq<Point>, sorted: seq<Point>)
    requires |points| >= 1 && multiset(sorted) == multiset(points) && SortedBy(sorted, PointLess)
    ensures forall q | q in sorted :: q in points
    ensures sorted[0] in points && sorted[|sorted| - 1] in points
    ensures forall q | q in points :: !PointLess(q, sorted[0]) && !PointLess(sorted[|sorted| - 1], q)
  {
    forall q | q in sorted ensures q in points {
      assert q in multiset(sorted);
    }
    assert sorted[0] in multiset(sorted) && sorted[|sorted| - 1] in multiset(sorted);
    forall q | q in points
      ensures !PointLess(q, sorted[0]) && !PointLess(sorted[|sorted| - 1], q)
    {
      assert q in multiset(points);
      var k :| 0 <= k < |sorted| && sorted[k] == q;
    }
  }

  // ---------------------------------------------------------------------
  // Area
  // ---------------------------------------------------------------------

  /** The sum of the cross products of consecutive points of an open path. */
  function Chain(p: seq<Point>): int
  {
    if |p| < 2 then 0 else Chain(p[..|p| - 1]) + CrossProduct(p[|p| - 2], p[|p| - 1])
  }

  /** The shoelace sum of a closed polygon: twice its signed area. */
  function Shoelace(p: seq<Point>): int
  {
    if |p| == 0 then 0 else Chain(p) + CrossProduct(p[|p| - 1], p[0])
  }

  lemma ChainStep(p: seq<Point>, i: nat)
    requires i + 1 < |p|
    ensures Chain(p[..i + 2]) == Chain(p[..i + 1]) + CrossProduct(p[i], p[i + 1])
  {
    assert p[..i + 2][..i + 1] == p[..i + 1];
  }

  /** Twice the area of the polygon, accumulated edge by edge. */
  method AreaTimes2(polygon: seq<Point>) returns (area: int)
    ensures area == Abs(Shoelace(polygon))
  {
    var n := |polygon|;
    var sum := 0;
    for i := 0 to n
      invariant i < n ==> sum == Chain(polygon[..i + 1])
      invariant i == n ==> sum == Shoelace(polygon)
    {
      var next := (i + 1) % n;
      if i + 1 < n {
        ChainStep(polygon, i);
        assert next == i + 1;
      } else {
        assert polygon[..i + 1] == polygon;
        assert next == 0;
      }
      sum := sum + CrossProduct(polygon[i], polygon[next]);
    }
    area := Abs(sum);
  }

  lemma {:induction false} ChainCons(a: Point, q: seq<Point>)
    requires |q| >= 1
    ensures Chain([a] + q) == CrossProduct(a, q[0]) + Chain(q)
  {
    if |q| >= 2 {
      var p := [a] + q;
      assert p[..|p| - 1] == [a] + q[..|q| - 1];
      ChainCons(a, q[..|q| - 1]);
    }
  }

  /** Starting the polygon at its second vertex does not change its area. */
  lemma ShoelaceRotate(p: seq<Point>)
    requires |p| >= 1
    ensures Shoelace(p[1..] + [p[0]]) == Shoelace(p)
  {
    var q := p[1..] + [p[0]];
    var n := |p|;
    if n >= 2 {
      assert q[..n - 1] == p[1..];
      assert q[n - 2] == p[n - 1] && q[n - 1] == p[0] && q[0] == p[1];
      assert Chain(q) == Chain(p[1..]) + CrossProduct(p[n - 1], p[0]);
      assert p == [p[0]] + p[1..];
      ChainCons(p[0], p[1..]);
      assert Chain(p) == CrossProduct(p[0], p[1]) + Chain(p[1..]);
    } else {
      assert q == p;
    }
  }

  lemma {:induction false} ChainReverse(p: seq<Point>)
    ensures Chain(Reverse(p)) == -Chain(p)
  {
    if |p| >= 2 {
      var tail := p[1..];
      var r := Reverse(tail);
      ChainReverse(tail);
      assert Reverse(p) == r + [p[0]];
      assert (r + [p[0]])[..|p| - 1] == r;
      assert r[|r| - 1] == p[1];
      assert p == [p[0]] + tail;
      ChainCons(p[0], tail);
    }
  }

  /** Listing the vertices the other way round negates the signed area. */
  lemma ShoelaceReverse(p: seq<Point>)
    ensures Shoelace(Reverse(p)) == -Shoelace(p)
  {
    ChainReverse(p);
    if |p| > 0 {
      var r := Reverse(p);
      assert r[0] == p[|p| - 1] && r[|r| - 1] == p[0];
      assert Shoelace(r) == Chain(r) + CrossProduct(p[0], p[|p| - 1]);
    }
  }

  function Shift(p: seq<Point>, t: Point): (r: seq<Point>)
    ensures |r| == |p| && forall i | 0 <= i < |p| :: r[i] == (p[i].0 + t.0, p[i].1 + t.1)
  {
    seq(|p|, i requires 0 <= i < |p| => (p[i].0 + t.0, p[i].1 + t.1))
  }

  lemma {:induction false} ChainShift(p: seq<Point>, t: Point)
    requires |p| >= 1
    ensures Chain(Shift(p, t)) == Chain(p) + CrossProduct(Minus(p[0], p[|p| - 1]), t)
  {
    if |p| >= 2 {
      var n := |p|;
      var init := p[..n - 1];
      var q := Shift(p, t);
      assert q[..n - 1] == Shift(init, t);
      ChainShift(init, t);
      assert Chain(q) == Chain(Shift(init, t)) + CrossProduct(q[n - 2], q[n - 1]);
      CrossShiftStep(p[0], p[n - 2], p[n - 1], t);
    }
  }

  /** The cross product of one moved edge, added to the telescoping sum so far. */
  lemma CrossShiftStep(a: Point, b: Point, c: Point, t: Point)
    ensures CrossProduct(Minus(a, b), t) + CrossProduct((b.0 + t.0, b.1 + t.1), (c.0 + t.0, c.1 + t.1))
      == CrossProduct(b, c) + CrossProduct(Minus(a, c), t)
  {
    assert (b.0 + t.0) * (c.1 + t.1) == b.0 * c.1 + b.0 * t.1 + t.0 * c.1 + t.0 * t.1;
    assert (b.1 + t.1) * (c.0 + t.0) == b.1 * c.0 + b.1 * t.0 + t.1 * c.0 + t.1 * t.0;
    assert (a.0 - b.0) * t.1 == a.0 * t.1 - b.0 * t.1;
    assert (a.1 - b.1) * t.0 == a.1 * t.0 - b.1 * t.0;
    assert (a.0 - c.0) * t.1 == a.0 * t.1 - c.0 * t.1;
    assert (a.1 - c.1) * t.0 == a.1 * t.0 - c.1 * t.0;
  }

  /** Moving the polygon does not change its area. */
  lemma ShoelaceShift(p: seq<Point>, t: Point)
    ensures Shoelace(Shift(p, t)) == Shoelace(p)
  {
    if |p| >= 1 {
      ChainShift(p, t);
    }
  }

  /** The area the judge measures does not depend on where the listing starts or which way it runs. */
  lemma AreaOrientationFree(p: seq<Point>)
    requires |p| >= 1
    ensures Abs(Shoelace(p[1..] + [p[0]])) == Abs(Shoelace(p))
    ensures Abs(Shoelace(Reverse(p))) == Abs(Shoelace(p))
  {
    ShoelaceRotate(p);
    ShoelaceReverse(p);
  }

  // ---------------------------------------------------------------------
  // Repeated numbers
  // ---------------------------------------------------------------------

  lemma TwiceAt(s: seq<int>, i: nat, j: nat)
    requires i < j < |s| && s[i] == s[j]
    ensures multiset(s)[s[i]] >= 2
  {
    assert s == s[..j] + s[j..];
    assert s[i] in multiset(s[..j]);
    assert s[j..][0] == s[j];
  }

  lemma {:induction false} StrictlyIncreasingOnce(s: seq<int>, v: int)
    requires forall k, l | 0 <= k < l < |s| :: s[k] < s[l]
    ensures multiset(s)[v] <= 1
  {
    if |s| > 0 {
      assert s == [s[0]] + s[1..];
      StrictlyIncreasingOnce(s[1..], v);
      if s[0] == v {
        assert v !in s[1..];
      }
    }
  }

  /** In a sorted list strictly increasing up to position i, nothing below x[i] occurs twice. */
  lemma OnceBelow(x: seq<int>, i: nat, v: int)
    requires i < |x| && SortedBy(x, IntLess)
    requires forall k, l | 0 <= k < l <= i :: x[k] < x[l]
    requires v < x[i]
    ensures multiset(x)[v] <= 1
  {
    assert x == x[..i + 1] + x[i + 1..];
    StrictlyIncreasingOnce(x[..i + 1], v);
    forall k | i + 1 <= k < |x|
      ensures x[k] != v
    {
      assert !IntLess(x[k], x[i]);
    }
    assert v !in x[i + 1..];
  }

  /** So a number that occurs twice is at least x[i]. */
  lemma FirstRepeat(x: seq<int>, i: nat, v: int)
    requires i < |x| && SortedBy(x, IntLess)
    requires forall k, l | 0 <= k < l <= i :: x[k] < x[l]
    requires multiset(x)[v] >= 2
    ensures x[i] <= v
  {
    if v < x[i] {
      OnceBelow(x, i, v);
    }
  }

  /**
   * Sorts the numbers and reports the first equal neighbours: the result is
   * the smallest number that occurs twice, or None when all are distinct.
   */
  method CheckNoDuplicates(numbers: seq<int>) returns (r: Option<int>)
    ensures r.None? <==> forall v :: multiset(numbers)[v] <= 1
    ensures r.Some? ==> multiset(numbers)[r.value] >= 2 &&
                        forall v | multiset(numbers)[v] >= 2 :: r.value <= v
  {
    IntLessTotal();
    var x := SortBy(numbers, IntLess);
    var i := 0;
    while i + 1 < |x|
      invariant |x| == 0 || i < |x|
      invariant forall k, l | 0 <= k < l <= i && l < |x| :: x[k] < x[l]
    {
      if x[i] == x[i + 1] {
        TwiceAt(x, i, i + 1);
        FirstRepeatAll(x, i);
        return Some(x[i]);
      }
      IncreasingStep(x, i);
      i := i + 1;
    }
    NoRepeat(x, numbers, i);
    return None;
  }

  /** The first equal neighbours found hold the smallest repeated number. */
  lemma FirstRepeatAll(x: seq<int>, i: nat)
    requires i < |x| && SortedBy(x, IntLess)
    requires forall k, l | 0 <= k < l <= i :: x[k] < x[l]
    ensures forall v | multiset(x)[v] >= 2 :: x[i] <= v
  {
    forall v | multiset(x)[v] >= 2
      ensures x[i] <= v
    {
      FirstRepeat(x, i, v);
    }
  }

  /** Unequal sorted neighbours extend the strictly increasing prefix. */
  lemma IncreasingStep(x: seq<int>, i: nat)
    requires i + 1 < |x| && SortedBy(x, IntLess) && x[i] != x[i + 1]
    requires forall k, l | 0 <= k < l <= i :: x[k] < x[l]
    ensures forall k, l | 0 <= k < l <= i + 1 :: x[k] < x[l]
  {
    assert !IntLess(x[i + 1], x[i]);
  }

  /** A list strictly increasing to its end repeats nothing, and neither does any rearrangement of it. */
  lemma NoRepeat(x: seq<int>, numbers: seq<int>, i: nat)
    requires multiset(x) == multiset(numbers) && (|x| == 0 || i + 1 == |x|)
    requires forall k, l | 0 <= k < l <= i && l < |x| :: x[k] < x[l]
    ensures forall v :: multiset(numbers)[v] <= 1
  {
    forall v
      ensures multiset(numbers)[v] <= 1
    {
      StrictlyIncreasingOnce(x, v);
    }
  }

  // ---------------------------------------------------------------------
  // Segment order for the sweep
  // ---------------------------------------------------------------------

  /** The two segments found to meet: (a, b) and (c, d). */
  datatype Intersection = Intersection(a: Point, b: Point, c: Point, d: Point)

  /**
   * Which of two left-to-right segments lies lower where both are above one
   * vertical line: -1 below, +1 above, 0 for the same segment; segments that
   * lie on one line, or cross, are an intersection.
   */
  function CompareSegments(s1: Segment, s2: Segment): (r: Result<int, Intersection>)
    ensures r.Ok? ==> -1 <= r.value <= 1
    ensures r.Err? ==> r.error == Intersection(s1.0, s1.1, s2.0, s2.1) && s1 != s2
  {
    if s1 == s2 then Ok(0)
    else
      var (a, b) := s1;
      var (c, d) := s2;
      var aSide := Sign(CrossProduct(Minus(d, c), Minus(a, c)));
      var bSide := Sign(CrossProduct(Minus(d, c), Minus(b, c)));
      var cSide := Sign(CrossProduct(Minus(b, a), Minus(c, a)));
      var dSide := Sign(CrossProduct(Minus(b, a), Minus(d, a)));
      if cSide == 0 && dSide == 0 then Err(Intersection(s1.0, s1.1, s2.0, s2.1))
      else if a == c then Ok(bSide)
      else if b == d then Ok(aSide)
      else if aSide == bSide then Ok(aSide)
      else if cSide == dSide then Ok(-cSide)
      else Err(Intersection(s1.0, s1.1, s2.0, s2.1))
  }

  lemma MulZero(x: int, y: int)
    requires x * y == 0 && x != 0
    ensures y == 0
  {
  }

  /** Two vectors both parallel to a non-zero vector are parallel to each other. */
  lemma Parallel(u: Point, v: Point, w: Point)
    requires u != (0, 0) && CrossProduct(u, v) == 0 && CrossProduct(u, w) == 0
    ensures CrossProduct(v, w) == 0
  {
    var x := CrossProduct(v, w);
    assert u.0 * v.1 == u.1 * v.0 && u.0 * w.1 == u.1 * w.0;
    assert u.0 * x == v.0 * (u.0 * w.1) - (u.0 * v.1) * w.0;
    assert u.0 * x == 0;
    assert u.1 * x == (u.1 * v.0) * w.1 - v.1 * (u.1 * w.0);
    assert u.1 * x == 0;
    if u.0 != 0 {
      MulZero(u.0, x);
    } else {
      MulZero(u.1, x);
    }
  }

  /** Against a proper segment, only the segment itself compares equal. */
  lemma CompareSegmentsZero(s1: Segment, s2: Segment)
    requires s2.0 != s2.1
    ensures CompareSegments(s1, s2) == Ok(0) <==> s1 == s2
  {
    var (a, b) := s1;
    var (c, d) := s2;
    var u, v, w := Minus(d, c), Minus(a, c), Minus(b, c);
    if s1 != s2 && CompareSegments(s1, s2) == Ok(0) {
      if a != c && b != d {
        Parallel(u, v, w);
      }
    }
  }

  /** Segments sharing their left or their right endpoint compare in opposite ways from either side. */
  lemma CompareSegmentsSharedEndpoint(s1: Segment, s2: Segment)
    requires s1.0 == s2.0 || s1.1 == s2.1
    ensures CompareSegments(s1, s2).Ok? <==> CompareSegments(s2, s1).Ok?
    ensures CompareSegments(s1, s2).Ok? ==> CompareSegments(s2, s1).value == -CompareSegments(s1, s2).value
  {
    var (a, b) := s1;
    var (c, d) := s2;
    if s1 != s2 {
      if a == c {
        assert CrossProduct(Minus(b, a), Minus(d, a)) == -CrossProduct(Minus(d, c), Minus(b, c));
      } else {
        assert CrossProduct(Minus(b, a), Minus(c, a)) == -CrossProduct(Minus(d, c), Minus(a, c));
      }
    }
  }

  // ---------------------------------------------------------------------
  // Judging one case
  // ---------------------------------------------------------------------

  datatype CaseError =
    | WrongLineCount(lines: nat)
    | WrongTokenCount(expected: nat, got: nat)
    | NotAnIndex(token: string)
    | RepeatedNumber(value: int)
    | SelfIntersection
    | AreaTooSmall(area: int, hullArea: int)

  /** Every token is an index of a post. */
  predicate AllIndices(tokens: seq<string>, n: nat)
  {
    forall i | 0 <= i < |tokens| :: ToInteger(tokens[i], Some(0), Some(n - 1)).Some?
  }

  function Indices(tokens: seq<string>, n: nat): (idx: seq<int>)
    requires AllIndices(tokens, n)
    ensures |idx| == |tokens| && forall i | 0 <= i < |idx| :: 0 <= idx[i] < n
  {
    seq(|tokens|, i requires 0 <= i < |tokens| =>
      var v := ToInteger(tokens[i], Some(0), Some(n - 1)).value;
      ToIntegerAccepted(tokens[i], Some(0), Some(n - 1), v);
      v)
  }

  function Arrange(posts: seq<Point>, idx: seq<int>): (polygon: seq<Point>)
    requires forall i | 0 <= i < |idx| :: 0 <= idx[i] < |posts|
    ensures |polygon| == |idx|
  {
    seq(|idx|, i requires 0 <= i < |idx| => posts[idx[i]])
  }

  /**
   * Judges one case: one line of n tokens, each a post index, none repeated;
   * the polygon they list must be simple and more than half the hull's area.
   * Whether the polygon is simple is the sweep's verdict, passed in as `simple`.
   */
  method JudgeCase(posts: seq<Point>, attempt: seq<seq<string>>, simple: bool)
    returns (r: Option<CaseError>, ghost hull: seq<Point>, ghost lower: seq<Point>, ghost upper: seq<Point>)
    requires |posts| >= 1
    ensures |attempt| != 1 ==> r == Some(WrongLineCount(|attempt|))
    ensures |attempt| == 1 && |attempt[0]| != |posts| ==> r == Some(WrongTokenCount(|posts|, |attempt[0]|))
    ensures r.Some? && r.value.NotAnIndex? ==>
              |attempt| == 1 && exists i | 0 <= i < |attempt[0]| ::
                attempt[0][i] == r.value.token && ToInteger(attempt[0][i], Some(0), Some(|posts| - 1)).None? &&
                AllIndices(attempt[0][..i], |posts|)
    ensures r.Some? && r.value.RepeatedNumber? ==>
              |attempt| == 1 && AllIndices(attempt[0], |posts|) &&
              multiset(Indices(attempt[0], |posts|))[r.value.value] >= 2
    ensures r.None? <==>
              |attempt| == 1 && |attempt[0]| == |posts| && AllIndices(attempt[0], |posts|) &&
              (forall v :: multiset(Indices(attempt[0], |posts|))[v] <= 1) && simple &&
              HullChains(hull, lower, upper, posts) &&
              2 * Abs(Shoelace(Arrange(posts, Indices(attempt[0], |posts|)))) > Abs(Shoelace(hull))
  {
    hull, lower, upper := [], [], [];
    var n := |posts|;
    if |attempt| != 1 {
      return Some(WrongLineCount(|attempt|)), hull, lower, upper;
    }
    var tokens := attempt[0];
    if |tokens| != n {
      return Some(WrongTokenCount(n, |tokens|)), hull, lower, upper;
    }
    var permutation := [];
    for i := 0 to n
      invariant |permutation| == i && AllIndices(tokens[..i], n)
      invariant forall k | 0 <= k < i :: ToInteger(tokens[k], Some(0), Some(n - 1)) == Some(permutation[k])
    {
      var p := ToInteger(tokens[i], Some(0), Some(n - 1));
      if p.None? {
        return Some(NotAnIndex(tokens[i])), hull, lower, upper;
      }
      assert tokens[..i + 1] == tokens[..i] + [tokens[i]];
      permutation := permutation + [p.value];
    }
    assert tokens[..n] == tokens;
    assert permutation == Indices(tokens, n);
    var repeated := CheckNoDuplicates(permutation);
    if repeated.Some? {
      return Some(RepeatedNumber(repeated.value)), hull, lower, upper;
    }
    var polygon := Arrange(posts, permutation);
    if !simple {
      return Some(SelfIntersection), hull, lower, upper;
    }
    var h;
    h, lower, upper := ConvexHull(posts);
    hull := h;
    var hullArea := AreaTimes2(h);
    var area := AreaTimes2(polygon);
    if 2 * area <= hullArea {
      return Some(AreaTooSmall(area, hullArea)), hull, lower, upper;
    }
    return None, hull, lower, upper;
  }
}
