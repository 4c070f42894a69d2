/**
 * The Zillionim local testing tool (Code Jam 2019, round 3).  A row of
 * coins 1..10^12 is kept as a list of half-open intervals of coins still
 * there; a play at p takes the B coins p..p+B-1, which must all still be
 * there, and drops any piece left shorter than B.  The tool picks its own
 * plays by numbering the valid plays.
 */
module Zillionim {
  import opened Wrappers
  import opened JudgeUtils

  /** Coins taken by one play. */
  const B: int := 10_000_000_000
  /** Coins in the row. */
  const C: int := B * 100

  /** The coins lo, lo+1, ..., hi-1. */
  datatype Interval = Interval(lo: int, hi: int)

  /** A play at p takes coins of v only: p..p+B-1 all lie in v. */
  predicate Covers(v: Interval, p: int)
  {
    v.lo <= p <= v.hi - B
  }

  /** p is a valid play on status. */
  ghost predicate Valid(status: seq<Interval>, p: int)
  {
    exists i | 0 <= i < |status| :: Covers(status[i], p)
  }

  /** Plays at p and q take disjoint runs of coins. */
  predicate Apart(q: int, p: int)
  {
    q + B <= p || p + B <= q
  }

  /** Every interval holds at least B coins, and the intervals are in increasing order without overlap. */
  ghost predicate WellFormed(status: seq<Interval>)
  {
    (forall i | 0 <= i < |status| :: status[i].hi - status[i].lo >= B) &&
    (forall i, j | 0 <= i < j < |status| :: status[i].hi < status[j].lo)
  }

  /** The status at the start of a game: every coin is there. */
  lemma StartWellFormed()
    ensures WellFormed([Interval(1, C + 1)])
  {
  }

  // ---------------------------------------------------------------------
  // ApplyPlay
  // ---------------------------------------------------------------------

  /** Python's `str` of a status: the list of its pairs. */
  function StatusStr(status: seq<Interval>): string
  {
    "[" + PairsStr(status) + "]"
  }

  function PairsStr(status: seq<Interval>): string
  {
    if status == [] then ""
    else if |status| == 1 then PairStr(status[0].lo, status[0].hi)
    else PairStr(status[0].lo, status[0].hi) + ", " + PairsStr(status[1..])
  }

  function InvalidPlayError(p: int, status: seq<Interval>): string
  {
    "Tried to play " + Decimal(p) + " on status " + StatusStr(status)
  }

  /** What a play at p leaves of one interval. */
  function Split(v: Interval, p: int): seq<Interval>
  {
    if Covers(v, p) then
      (if p - v.lo >= B then [Interval(v.lo, p)] else []) +
      (if v.hi - (p + B) >= B then [Interval(p + B, v.hi)] else [])
    else
      [v]
  }

  /** What a play at p leaves of every interval, in order. */
  function Pieces(status: seq<Interval>, p: int): seq<Interval>
  {
    if status == [] then [] else Pieces(status[..|status| - 1], p) + Split(status[|status| - 1], p)
  }

  /** The outcome of a play: an error unless p is valid. */
  ghost function Play(status: seq<Interval>, p: int): Result<seq<Interval>, string>
  {
    if Valid(status, p) then Ok(Pieces(status, p)) else Err(InvalidPlayError(p, status))
  }

  /** The source's ApplyPlay. */
  method ApplyPlay(status: seq<Interval>, p: int) returns (r: Result<seq<Interval>, string>)
    ensures r == Play(status, p)
  {
    var newStatus := [];
    var foundValid := false;
    for i := 0 to |status|
      invariant newStatus == Pieces(status[..i], p)
      invariant foundValid <==> exists k | 0 <= k < i :: Covers(status[k], p)
    {
      assert status[..i + 1][..i] == status[..i];
      var v := status[i];
      if v.lo <= p <= v.hi - B {
        foundValid := true;
        if p - v.lo >= B {
          newStatus := newStatus + [Interval(v.lo, p)];
        }
        if v.hi - (p + B) >= B {
          newStatus := newStatus + [Interval(p + B, v.hi)];
        }
      } else {
        newStatus := newStatus + [v];
      }
    }
    assert status[..|status|] == status;
    if !foundValid {
      return Err(InvalidPlayError(p, status));
    }
    return Ok(newStatus);
  }

  /** Each piece of a split interval is part of it, holds at least B coins, and the pieces are in order. */
  lemma SplitInside(v: Interval, p: int)
    requires v.hi - v.lo >= B
    ensures WellFormed(Split(v, p))
    ensures forall k | 0 <= k < |Split(v, p)| :: v.lo <= Split(v, p)[k].lo && Split(v, p)[k].hi <= v.hi
  {
  }

  /** Two well-formed lists, the first ending before the second begins, make a well-formed list. */
  lemma WellFormedConcat(x: seq<Interval>, y: seq<Interval>)
    requires WellFormed(x) && WellFormed(y)
    requires forall k, l | 0 <= k < |x| && 0 <= l < |y| :: x[k].hi < y[l].lo
    ensures WellFormed(x + y)
  {
    var z := x + y;
    forall i, j | 0 <= i < j < |z|
      ensures z[i].hi < z[j].lo
    {
      if j < |x| {
        assert z[i] == x[i] && z[j] == x[j];
      } else if i >= |x| {
        assert z[i] == y[i - |x|] && z[j] == y[j - |x|];
      } else {
        assert z[i] == x[i] && z[j] == y[j - |x|];
      }
    }
  }

  /** The pieces of a well-formed status are well formed and lie within its span. */
  lemma {:induction false} PiecesWellFormed(status: seq<Interval>, p: int)
    requires WellFormed(status) && |status| >= 1
    ensures WellFormed(Pieces(status, p))
    ensures forall k | 0 <= k < |Pieces(status, p)| ::
      status[0].lo <= Pieces(status, p)[k].lo && Pieces(status, p)[k].hi <= status[|status| - 1].hi
  {
    var n := |status|;
    var front := status[..n - 1];
    var v := status[n - 1];
    SplitInside(v, p);
    var x, y := Pieces(front, p), Split(v, p);
    assert Pieces(status, p) == x + y;
    if n > 1 {
      assert WellFormed(front);
      PiecesWellFormed(front, p);
      assert status[0].lo <= status[n - 2].hi < v.lo;
      WellFormedConcat(x, y);
    } else {
      assert front == [];
      assert x + y == y;
    }
  }

  /** Interval v still offers q after a play at p: it offered q, away from p if it held p. */
  predicate KeptAt(v: Interval, p: int, q: int)
  {
    Covers(v, q) && (Covers(v, p) ==> Apart(q, p))
  }

  /** Some interval of status still offers q after a play at p. */
  ghost predicate Kept(status: seq<Interval>, p: int, q: int)
  {
    exists i | 0 <= i < |status| :: KeptAt(status[i], p, q)
  }

  /** A play at p leaves q valid on an interval exactly when the interval keeps q. */
  lemma SplitCovers(v: Interval, p: int, q: int)
    ensures Valid(Split(v, p), q) <==> KeptAt(v, p, q)
  {
    if !Covers(v, p) && Covers(v, q) {
      assert Covers(Split(v, p)[0], q);
    }
    if Covers(v, p) && Covers(v, q) && Apart(q, p) {
      if q + B <= p {
        assert Covers(Split(v, p)[0], q);
      } else {
        var k := if p - v.lo >= B then 1 else 0;
        assert Covers(Split(v, p)[k], q);
      }
    }
    if Valid(Split(v, p), q) {
      var k :| 0 <= k < |Split(v, p)| && Covers(Split(v, p)[k], q);
      var w := Split(v, p)[k];
      if Covers(v, p) {
        assert w == Interval(v.lo, p) || w == Interval(p + B, v.hi);
      }
    }
  }

  lemma ValidConcat(x: seq<Interval>, y: seq<Interval>, q: int)
    ensures Valid(x + y, q) <==> Valid(x, q) || Valid(y, q)
  {
    if Valid(x + y, q) {
      var k :| 0 <= k < |x + y| && Covers((x + y)[k], q);
      if k < |x| {
        assert Covers(x[k], q);
      } else {
        assert Covers(y[k - |x|], q);
      }
    }
    if Valid(x, q) {
      var k :| 0 <= k < |x| && Covers(x[k], q);
      assert (x + y)[k] == x[k];
    }
    if Valid(y, q) {
      var k :| 0 <= k < |y| && Covers(y[k], q);
      assert (x + y)[|x| + k] == y[k];
    }
  }

  lemma KeptSnoc(status: seq<Interval>, p: int, q: int)
    requires status != []
    ensures Kept(status, p, q) <==> Kept(status[..|status| - 1], p, q) || KeptAt(status[|status| - 1], p, q)
  {
    var front := status[..|status| - 1];
    if Kept(status, p, q) {
      var i :| 0 <= i < |status| && KeptAt(status[i], p, q);
      if i < |front| {
        assert front[i] == status[i];
      }
    }
    if Kept(front, p, q) {
      var i :| 0 <= i < |front| && KeptAt(front[i], p, q);
      assert status[i] == front[i];
    }
  }

  /** q is valid after a play at p exactly when some interval keeps q. */
  lemma {:induction false} PiecesValid(status: seq<Interval>, p: int, q: int)
    ensures Valid(Pieces(status, p), q) <==> Kept(status, p, q)
  {
    if status != [] {
      var front := status[..|status| - 1];
      PiecesValid(front, p, q);
      SplitCovers(status[|status| - 1], p, q);
      ValidConcat(Pieces(front, p), Split(status[|status| - 1], p), q);
      KeptSnoc(status, p, q);
    }
  }

  /**
   * On a well-formed status a play at p is refused exactly when p is not
   * valid; otherwise the new status is well formed, and a play q is valid
   * on it exactly when q was valid before and takes coins apart from p's.
   */
  lemma PlayValid(status: seq<Interval>, p: int)
    requires WellFormed(status)
    ensures Play(status, p).Err? <==> !Valid(status, p)
    ensures Play(status, p).Ok? ==> WellFormed(Play(status, p).value)
    ensures Play(status, p).Ok? ==> forall q :: Valid(Play(status, p).value, q) <==> Valid(status, q) && Apart(q, p)
  {
    if Valid(status, p) {
      var k :| 0 <= k < |status| && Covers(status[k], p);
      PiecesWellFormed(status, p);
      forall q
        ensures Valid(Pieces(status, p), q) <==> Valid(status, q) && Apart(q, p)
      {
        PiecesValid(status, p, q);
        if Valid(status, q) && Apart(q, p) {
          var i :| 0 <= i < |status| && Covers(status[i], q);
          assert KeptAt(status[i], p, q);
        }
        if Valid(Pieces(status, p), q) {
          var i :| 0 <= i < |status| && KeptAt(status[i], p, q);
          if i < k {
            assert status[i].hi < status[k].lo;
          } else if k < i {
            assert status[k].hi < status[i].lo;
          }
        }
      }
    }
  }

  // ---------------------------------------------------------------------
  // Counting and numbering the valid plays
  // ---------------------------------------------------------------------

  /** Valid plays on one interval. */
  function Plays(v: Interval): int
  {
    v.hi - v.lo - B + 1
  }

  /** The source's CountValidPoints: the valid plays of every interval together. */
  function CountValidPoints(status: seq<Interval>): (n: int)
    ensures WellFormed(status) ==> n >= |status|
  {
    if status == [] then 0 else Plays(status[0]) + CountValidPoints(status[1..])
  }

  /** The i-th valid play, counting from 0 through the intervals in order. */
  function Ith(status: seq<Interval>, i: int): int
    requires WellFormed(status) && 0 <= i < CountValidPoints(status)
  {
    if Plays(status[0]) > i then status[0].lo + i
    else
      assert WellFormed(status[1..]);
      Ith(status[1..], i - Plays(status[0]))
  }

  /** The source's IthPoint. */
  method IthPoint(status: seq<Interval>, i0: int) returns (p: int)
    requires WellFormed(status) && 0 <= i0 < CountValidPoints(status)
    ensures p == Ith(status, i0)
  {
    var i := i0;
    for j := 0 to |status|
      invariant WellFormed(status[j..]) && 0 <= i < CountValidPoints(status[j..])
      invariant Ith(status[j..], i) == Ith(status, i0)
    {
      var v := status[j];
      assert status[j..][1..] == status[j + 1..];
      if v.hi - v.lo - B + 1 > i {
        return v.lo + i;
      }
      i := i - (v.hi - v.lo - B + 1);
    }
    assert false;
  }

  /** Every numbered play is valid, on an interval no earlier than the first. */
  lemma {:induction false} IthValid(status: seq<Interval>, i: int)
    requires WellFormed(status) && 0 <= i < CountValidPoints(status)
    ensures Valid(status, Ith(status, i)) && status[0].lo <= Ith(status, i)
  {
    if Plays(status[0]) <= i {
      var rest := status[1..];
      assert WellFormed(rest);
      IthValid(rest, i - Plays(status[0]));
      var k :| 0 <= k < |rest| && Covers(rest[k], Ith(rest, i - Plays(status[0])));
      assert status[k + 1] == rest[k];
      assert status[0].hi < status[1].lo;
    } else {
      assert Covers(status[0], Ith(status, i));
    }
  }

  /** The numbering is strictly increasing. */
  lemma {:induction false} IthIncreasing(status: seq<Interval>, i: int, j: int)
    requires WellFormed(status) && 0 <= i < j < CountValidPoints(status)
    ensures Ith(status, i) < Ith(status, j)
  {
    var n0 := Plays(status[0]);
    if j >= n0 {
      var rest := status[1..];
      assert WellFormed(rest);
      if i >= n0 {
        IthIncreasing(rest, i - n0, j - n0);
      } else {
        IthValid(rest, j - n0);
        assert status[0].hi < status[1].lo;
      }
    }
  }

  /** Every valid play is numbered. */
  lemma {:induction false} IthOnto(status: seq<Interval>, q: int)
    requires WellFormed(status) && Valid(status, q)
    ensures exists i | 0 <= i < CountValidPoints(status) :: Ith(status, i) == q
  {
    if Covers(status[0], q) {
      assert Ith(status, q - status[0].lo) == q;
    } else {
      var rest := status[1..];
      assert WellFormed(rest);
      var k :| 0 <= k < |status| && Covers(status[k], q);
      assert rest[k - 1] == status[k];
      IthOnto(rest, q);
      var i :| 0 <= i < CountValidPoints(rest) && Ith(rest, i) == q;
      assert Ith(status, i + Plays(status[0])) == q;
    }
  }
}
