/**
 * The You Can Go Your Own Way judge (Code Jam 2019, qualification round).
 * On an N by N grid, a path from the north-west to the south-east corner is
 * a string of moves 's' (south) and 'e' (east).  The contestant's path must
 * never make the move Lydia's given path makes from the same cell.
 */
module YouCanGoYourOwnWay {
  import opened Wrappers
  import opened JudgeUtils

  const BadCharacter := "Bad character in path."
  const BadDestination := "Path does not reach the southeast corner."
  const BadFormat := "Wrong number of lines/tokens."
  const BadLength := "Path length is incorrect."

  function ReusedMove(i: int): string
  {
    "Move " + Decimal(i) + " matches given path."
  }

  predicate IsMove(c: char)
  {
    c == 's' || c == 'e'
  }

  predicate OnlyMoves(path: string)
  {
    forall i | 0 <= i < |path| :: IsMove(path[i])
  }

  /** The cell (row, column) reached after the first i moves; other characters stay put. */
  function Pos(path: string, i: nat): (int, int)
    requires i <= |path|
  {
    if i == 0 then (0, 0)
    else
      var p := Pos(path, i - 1);
      if path[i - 1] == 's' then (p.0 + 1, p.1)
      else if path[i - 1] == 'e' then (p.0, p.1 + 1)
      else p
  }

  /** Step i repeats the given path's move from the same cell. */
  predicate Reused(mine: string, theirs: string, i: nat)
    requires i < |mine| && i < |theirs|
  {
    Pos(mine, i) == Pos(theirs, i) && mine[i] == theirs[i]
  }

  /** What the judge stops at in step i: a reused move or a character that is no move. */
  predicate Problem(mine: string, theirs: string, i: nat)
    requires i < |mine| && i < |theirs|
  {
    Reused(mine, theirs, i) || !IsMove(mine[i])
  }

  /** The first step from i on with a problem, or |mine| when there is none. */
  function FirstProblem(mine: string, theirs: string, i: nat): (k: nat)
    requires |mine| <= |theirs| && i <= |mine|
    ensures i <= k <= |mine|
    ensures k < |mine| ==> Problem(mine, theirs, k)
    ensures forall j | i <= j < k :: !Problem(mine, theirs, j)
    decreases |mine| - i
  {
    if i == |mine| || Problem(mine, theirs, i) then i else FirstProblem(mine, theirs, i + 1)
  }

  /** The judge's verdict on one case: None when the path is accepted. */
  function Verdict(lines: seq<seq<string>>, n: int, theirs: string): Option<string>
    requires |theirs| == 2 * n - 2
  {
    if |lines| != 1 || |lines[0]| != 1 then Some(BadFormat)
    else
      var mine := lines[0][0];
      if |mine| != 2 * n - 2 then Some(BadLength)
      else
        var k := FirstProblem(mine, theirs, 0);
        if k < |mine| then (if Reused(mine, theirs, k) then Some(ReusedMove(k)) else Some(BadCharacter))
        else if Pos(mine, |mine|) != (n - 1, n - 1) then Some(BadDestination)
        else None
  }

  /** The moves a path makes, each with the cell it starts from. */
  function Moves(path: string): set<((int, int), char)>
  {
    set i | 0 <= i < |path| :: (Pos(path, i), path[i])
  }

  /** A path of moves only is on the i-th anti-diagonal after i moves. */
  lemma {:induction false} PosDiagonal(path: string, i: nat)
    requires i <= |path| && OnlyMoves(path)
    ensures Pos(path, i).0 + Pos(path, i).1 == i
  {
    if i > 0 {
      PosDiagonal(path, i - 1);
    }
  }

  /**
   * Two paths share a move from the same cell exactly when they do so at the
   * same step, which is what the judge checks: the cell fixes the step.
   */
  lemma SharedMoveSameStep(mine: string, theirs: string)
    requires |mine| == |theirs| && OnlyMoves(mine) && OnlyMoves(theirs)
    ensures Moves(mine) !! Moves(theirs) <==> forall i | 0 <= i < |mine| :: !Reused(mine, theirs, i)
  {
    if exists i | 0 <= i < |mine| :: Reused(mine, theirs, i) {
      var i :| 0 <= i < |mine| && Reused(mine, theirs, i);
      assert (Pos(mine, i), mine[i]) in Moves(mine) * Moves(theirs);
    }
    if !(Moves(mine) !! Moves(theirs)) {
      var m :| m in Moves(mine) && m in Moves(theirs);
      var i :| 0 <= i < |mine| && m == (Pos(mine, i), mine[i]);
      var j :| 0 <= j < |theirs| && m == (Pos(theirs, j), theirs[j]);
      PosDiagonal(mine, i);
      PosDiagonal(theirs, j);
      assert Reused(mine, theirs, i);
    }
  }

  /** The steps among the first i that are the move c. */
  function StepsOf(path: string, i: nat, c: char): set<nat>
    requires i <= |path|
  {
    set j | 0 <= j < i && path[j] == c
  }

  lemma StepsOfNext(path: string, i: nat, c: char)
    requires i < |path|
    ensures StepsOf(path, i + 1, c) == StepsOf(path, i, c) + (if path[i] == c then {i} else {})
  {
  }

  /** A path of moves only ends at its count of 's' moves down and 'e' moves across. */
  lemma {:induction false} PosCounts(path: string, i: nat)
    requires i <= |path| && OnlyMoves(path)
    ensures Pos(path, i) == (|StepsOf(path, i, 's')|, |StepsOf(path, i, 'e')|)
  {
    if i > 0 {
      PosCounts(path, i - 1);
      StepsOfNext(path, i - 1, 's');
      StepsOfNext(path, i - 1, 'e');
    }
  }

  /**
   * The judge accepts exactly a south-east path of the right length, of moves
   * only, with N-1 moves of each kind, that makes none of the given path's moves.
   */
  lemma VerdictAccepts(lines: seq<seq<string>>, n: int, theirs: string)
    requires |theirs| == 2 * n - 2 && OnlyMoves(theirs)
    ensures Verdict(lines, n, theirs).None? <==>
      && |lines| == 1 && |lines[0]| == 1
      && var mine := lines[0][0];
      && |mine| == 2 * n - 2 && OnlyMoves(mine)
      && |StepsOf(mine, |mine|, 's')| == n - 1
      && Moves(mine) !! Moves(theirs)
  {
    if |lines| == 1 && |lines[0]| == 1 && |lines[0][0]| == 2 * n - 2 {
      var mine := lines[0][0];
      var k := FirstProblem(mine, theirs, 0);
      if k == |mine| {
        forall i | 0 <= i < |mine| ensures IsMove(mine[i]) && !Reused(mine, theirs, i) {
          assert !Problem(mine, theirs, i);
        }
        SharedMoveSameStep(mine, theirs);
        PosCounts(mine, |mine|);
        PosDiagonal(mine, |mine|);
      } else {
        assert Problem(mine, theirs, k);
        if OnlyMoves(mine) {
          SharedMoveSameStep(mine, theirs);
        }
      }
    }
  }

  /** The source's VerifyAttempt: both walkers advance together, step by step. */
  method VerifyAttempt(lines: seq<seq<string>>, n: int, theirs: string) returns (r: Option<string>)
    requires |theirs| == 2 * n - 2 && OnlyMoves(theirs)
    ensures r == Verdict(lines, n, theirs)
  {
    if |lines| != 1 || |lines[0]| != 1 {
      return Some(BadFormat);
    }
    var mine := lines[0][0];
    if |mine| != 2 * n - 2 {
      return Some(BadLength);
    }
    var myR, myC := 0, 0;
    var theirR, theirC := 0, 0;
    for i := 0 to 2 * n - 2
      invariant (myR, myC) == Pos(mine, i) && (theirR, theirC) == Pos(theirs, i)
      invariant FirstProblem(mine, theirs, 0) == FirstProblem(mine, theirs, i)
    {
      if (myR, myC) == (theirR, theirC) && mine[i] == theirs[i] {
        return Some(ReusedMove(i));
      }
      if theirs[i] == 's' {
        theirR := theirR + 1;
      } else {
        theirC := theirC + 1;
      }
      if mine[i] == 's' {
        myR := myR + 1;
      } else if mine[i] == 'e' {
        myC := myC + 1;
      } else {
        return Some(BadCharacter);
      }
    }
    if (myR, myC) != (n - 1, n - 1) {
      return Some(BadDestination);
    }
    return None;
  }
}
