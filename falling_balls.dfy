/**
 * The Falling Balls judge (Code Jam 2018, round 2).  A board has C columns;
 * one ball starts above each column.  The answer is either IMPOSSIBLE or a
 * row count followed by that many rows of '.', '\' and '/' cells: a '\'
 * moves a ball one column right, a '/' one column left.  The outer columns
 * and the bottom row hold no ramps, no '\' stands just left of a '/', and
 * the balls must end in the counts the case gives.  The judge also compares
 * the number of rows with its own answer's.
 */
module FallingBalls {
  import opened Wrappers
  import opened JudgeUtils
  import opened Sequences

  function BadOutput(e: string): string
  {
    "Our output is incorrect: " + e
  }

  const BadFormat := "Output is not a valid layout or IMPOSSIBLE"
  const BadImpossibleClaim := "Solution claims a layout does not exist while our solution finds one"
  const BadLessRows := BadOutput("Solution uses less rows than our solution")
  const BadMoreRows := "Solution uses more rows than our solution"
  const BadPossibleClaim := BadOutput("Solution shows that a layout exists while our solution does not find one")
  const BadVShape := "An occurrence of \\/ is found"
  const BadLeftColumn := "Ramp is found on the leftmost column"
  const BadRightColumn := "Ramp is found on the rightmost column"
  const BadBottomRow := "Ramp is found on the bottommost row"
  const BadBallsMismatch := "Some column does not have the correct number of balls"
  const ImpossibleKeyword := "IMPOSSIBLE"
  /** The row count the judge records for an IMPOSSIBLE answer. */
  const ImpossibleRows: int := 0x7fff_ffff

  /** One case: the number of columns and the balls each column must end with. */
  datatype CaseInput = CaseInput(c: int, balls: seq<int>)

  /** The judge's reading of one answer: an error or None, and the rows counted when accepted. */
  datatype Outcome = Outcome(error: Option<string>, rows: Option<int>)

  function Fail(e: string): Outcome
  {
    Outcome(Some(e), None)
  }

  // ---------------------------------------------------------------------
  // The board, as the problem describes it
  // ---------------------------------------------------------------------

  predicate IsCell(ch: char)
  {
    ch == '.' || ch == '\\' || ch == '/'
  }

  /** Every row of the grid has c cells. */
  predicate Rectangular(grid: seq<string>, c: int)
  {
    forall i | 0 <= i < |grid| :: |grid[i]| == c
  }

  /**
   * A row the judge allows: c cells of '.', '\' and '/', empty outer
   * columns, no '\' just left of a '/', and only '.' when it is the bottom row.
   */
  predicate ValidRow(s: string, c: int, last: bool)
  {
    && |s| == c && c >= 1
    && (forall j | 0 <= j < c :: IsCell(s[j]))
    && s[0] == '.' && s[c - 1] == '.'
    && (last ==> forall j | 0 <= j < c :: s[j] == '.')
    && forall j | 0 <= j < c - 1 :: !(s[j] == '\\' && s[j + 1] == '/')
  }

  /** A layout: at least one row, every row allowed, the last one as the bottom row. */
  predicate ValidLayout(grid: seq<string>, c: int)
  {
    && Rectangular(grid, c)
    && |grid| >= 1
    && forall i | 0 <= i < |grid| :: ValidRow(grid[i], c, i == |grid| - 1)
  }

  /**
   * The balls under each column after one row, by where each can come from:
   * straight down through a '.', from the left off a '\', from the right off a '/'.
   */
  function Fall(s: string, balls: seq<int>): (r: seq<int>)
    requires |s| == |balls|
    ensures |r| == |s|
  {
    seq(|s|, k requires 0 <= k < |s| =>
      (if s[k] == '.' then balls[k] else 0)
      + (if k >= 1 && s[k - 1] == '\\' then balls[k - 1] else 0)
      + (if k + 1 < |s| && s[k + 1] == '/' then balls[k + 1] else 0))
  }

  /** The balls under each column after the rows of the grid, one ball starting in each column. */
  function Simulate(grid: seq<string>, c: nat): (r: seq<int>)
    requires Rectangular(grid, c)
    ensures |r| == c
  {
    if grid == [] then seq(c, _ => 1)
    else Fall(grid[|grid| - 1], Simulate(grid[..|grid| - 1], c))
  }

  // ---------------------------------------------------------------------
  // The judge's reading of an answer
  // ---------------------------------------------------------------------

  /** The scan of columns j.. of a row: a ramp on the bottom row, or a '\' followed by a '/'. */
  function Scan(s: string, last: bool, j: nat): Option<string>
    requires j <= |s| && |s| >= 1 && s[|s| - 1] == '.'
    decreases |s| - j
  {
    if j == |s| then None
    else if last && s[j] != '.' then Some(BadBottomRow)
    else if s[j] == '\\' && s[j + 1] == '/' then Some(BadVShape)
    else Scan(s, last, j + 1)
  }

  /** The checks on one line of rows, in the judge's order. */
  function RowError(line: seq<string>, c: int, last: bool): (r: Option<string>)
    requires c >= 1
    ensures r.None? ==> |line| == 1 && |line[0]| == c && line[0][0] == '.' && line[0][c - 1] == '.'
  {
    if |line| != 1 || |line[0]| != c then Some(BadFormat)
    else if exists j | 0 <= j < c :: !IsCell(line[0][j]) then Some(BadFormat)
    else if line[0][0] != '.' then Some(BadLeftColumn)
    else if line[0][c - 1] != '.' then Some(BadRightColumn)
    else Scan(line[0], last, 0)
  }

  /** The first k lines of rows checked and fallen through, or the first row's error. */
  function Run(rows: seq<seq<string>>, c: int, k: nat): (r: Result<seq<int>, string>)
    requires c >= 1 && k <= |rows|
    ensures r.Ok? ==> |r.value| == c
  {
    if k == 0 then Ok(seq(c, _ => 1))
    else match Run(rows, c, k - 1)
      case Err(e) => Err(e)
      case Ok(balls) =>
        match RowError(rows[k - 1], c, k == |rows|)
        case Some(e) => Err(e)
        case None => Ok(Fall(rows[k - 1][0], balls))
  }

  /** The row count against the one expected: more, fewer, or a layout where none was expected. */
  function Compare(expected: Option<int>, rows: int): (o: Outcome)
    ensures o.error.None? <==> expected.None? || expected == Some(rows)
    ensures o.error.None? ==> o.rows == Some(rows)
    ensures expected.Some? && expected.value != rows && expected.value != ImpossibleRows ==>
      o.error == Some(if expected.value < rows then BadMoreRows else BadLessRows)
  {
    if expected.None? || expected.value == rows then Outcome(None, Some(rows))
    else if expected.value == ImpossibleRows then Fail(BadPossibleClaim)
    else if expected.value < rows then Fail(BadMoreRows)
    else Fail(BadLessRows)
  }

  /** The judge's VerifyOutput, with the row count expected from its own answer (None for its own). */
  function Verify(lines: seq<seq<string>>, cs: CaseInput, expected: Option<int>): Outcome
    requires cs.c >= 1
  {
    if |lines| < 1 || |lines[0]| != 1 then Fail(BadFormat)
    else if |lines| == 1 then
      if Lower(lines[0][0]) != Lower(ImpossibleKeyword) then Fail(BadFormat)
      else if expected.None? || expected.value == ImpossibleRows then Outcome(None, Some(ImpossibleRows))
      else Fail(BadImpossibleClaim)
    else match PyInt(lines[0][0])
      case None => Fail(BadFormat)
      case Some(rows) =>
        if |lines| != rows + 1 then Fail(BadFormat)
        else match Run(lines[1..], cs.c, |lines| - 1)
          case Err(e) => Fail(e)
          case Ok(balls) => if balls != cs.balls then Fail(BadBallsMismatch) else Compare(expected, rows)
  }

  /** The judge's verdict on a case: its own answer must pass, then the attempt must match its row count. */
  function VerifyCase(outputLines: seq<seq<string>>, attemptLines: seq<seq<string>>, cs: CaseInput): Option<string>
    requires cs.c >= 1
  {
    var ours := Verify(outputLines, cs, None);
    if ours.error.Some? then Some(BadOutput(ours.error.value))
    else Verify(attemptLines, cs, ours.rows).error
  }

  // ---------------------------------------------------------------------
  // What the judge accepts
  // ---------------------------------------------------------------------

  /** The first token of every line (an empty string for an empty line). */
  function Firsts(lines: seq<seq<string>>): (r: seq<string>)
    ensures |r| == |lines|
  {
    seq(|lines|, i requires 0 <= i < |lines| => if lines[i] == [] then "" else lines[i][0])
  }

  /** The answer IMPOSSIBLE, in any case of letters. */
  predicate ImpossibleAnswer(lines: seq<seq<string>>)
  {
    |lines| == 1 && |lines[0]| == 1 && Lower(lines[0][0]) == Lower(ImpossibleKeyword)
  }

  /**
   * A layout answer the judge accepts before comparing row counts: the row
   * count, then that many one-token lines forming a valid layout whose balls
   * end as the case says.
   */
  predicate LayoutAnswer(lines: seq<seq<string>>, cs: CaseInput)
  {
    && |lines| >= 2 && |lines[0]| == 1 && PyInt(lines[0][0]) == Some(|lines| - 1)
    && (forall i | 1 <= i < |lines| :: |lines[i]| == 1)
    && cs.c >= 1
    && ValidLayout(Firsts(lines[1..]), cs.c)
    && Simulate(Firsts(lines[1..]), cs.c) == cs.balls
  }

  /** The scan finds nothing exactly when no later cell breaks the bottom-row or \/ rule. */
  lemma {:induction false} ScanNone(s: string, last: bool, j: nat)
    requires j <= |s| && |s| >= 1 && s[|s| - 1] == '.'
    ensures Scan(s, last, j).None? <==>
      forall k | j <= k < |s| :: !(last && s[k] != '.') && (k + 1 < |s| ==> !(s[k] == '\\' && s[k + 1] == '/'))
    ensures Scan(s, last, j).Some? ==> Scan(s, last, j).value == if last then BadBottomRow else BadVShape
    decreases |s| - j
  {
    if j < |s| {
      ScanNone(s, last, j + 1);
    }
  }

  /** A line of rows passes the judge's checks exactly when it is one token forming an allowed row. */
  lemma RowErrorNone(line: seq<string>, c: int, last: bool)
    requires c >= 1
    ensures RowError(line, c, last).None? <==> |line| == 1 && ValidRow(line[0], c, last)
  {
    if |line| == 1 && |line[0]| == c && line[0][0] == '.' && line[0][c - 1] == '.' {
      ScanNone(line[0], last, 0);
    }
  }

  /** Once a row fails, later rows do not change the error. */
  lemma {:induction false} RunErrStays(rows: seq<seq<string>>, c: int, k: nat, m: nat)
    requires c >= 1 && k <= m <= |rows| && Run(rows, c, k).Err?
    ensures Run(rows, c, m) == Run(rows, c, k)
    decreases m - k
  {
    if k < m {
      RunErrStays(rows, c, k, m - 1);
    }
  }

  /** Running the rows succeeds exactly when every row passes, and then drops the balls through them. */
  lemma {:induction false} RunSimulates(rows: seq<seq<string>>, c: int, k: nat)
    requires c >= 1 && k <= |rows|
    ensures Run(rows, c, k).Ok? <==> forall i | 0 <= i < k :: RowError(rows[i], c, i == |rows| - 1).None?
    ensures Run(rows, c, k).Ok? ==>
      Rectangular(Firsts(rows)[..k], c) && Run(rows, c, k).value == Simulate(Firsts(rows)[..k], c)
  {
    if k > 0 {
      RunSimulates(rows, c, k - 1);
      var grid := Firsts(rows)[..k];
      assert grid[..k - 1] == Firsts(rows)[..k - 1];
    }
  }

  /**
   * The judge accepts an answer exactly when it is IMPOSSIBLE and no layout
   * was expected, or a layout with the expected number of rows (or none
   * expected); it then reports that number of rows.
   */
  lemma VerifyAccepts(lines: seq<seq<string>>, cs: CaseInput, expected: Option<int>)
    requires cs.c >= 1
    ensures Verify(lines, cs, expected).error.None? <==>
      || (ImpossibleAnswer(lines) && (expected.None? || expected == Some(ImpossibleRows)))
      || (LayoutAnswer(lines, cs) && (expected.None? || expected == Some(|lines| - 1)))
    ensures Verify(lines, cs, expected).error.None? ==>
      Verify(lines, cs, expected).rows == Some(if |lines| == 1 then ImpossibleRows else |lines| - 1)
  {
    if |lines| >= 2 && |lines[0]| == 1 && PyInt(lines[0][0]) == Some(|lines| - 1) {
      var rows := lines[1..];
      RunSimulates(rows, cs.c, |rows|);
      assert Firsts(rows)[..|rows|] == Firsts(rows);
      forall i | 0 <= i < |rows|
        ensures RowError(rows[i], cs.c, i == |rows| - 1).None? <==> |rows[i]| == 1 && ValidRow(Firsts(rows)[i], cs.c, i == |rows| - 1)
      {
        RowErrorNone(rows[i], cs.c, i == |rows| - 1);
      }
      forall i | 1 <= i < |lines| ensures lines[i] == rows[i - 1] { }
    }
  }

  /**
   * The case is accepted exactly when the judge's own answer passes and the
   * attempt passes with the judge's row count: an IMPOSSIBLE answer against
   * an IMPOSSIBLE one, a layout against a layout with as many rows.
   */
  lemma VerifyCaseAccepts(outputLines: seq<seq<string>>, attemptLines: seq<seq<string>>, cs: CaseInput)
    requires cs.c >= 1
    ensures VerifyCase(outputLines, attemptLines, cs).None? <==>
      || (ImpossibleAnswer(outputLines) && ImpossibleAnswer(attemptLines))
      || (ImpossibleAnswer(outputLines) && LayoutAnswer(attemptLines, cs) && |attemptLines| - 1 == ImpossibleRows)
      || (LayoutAnswer(outputLines, cs) && ImpossibleAnswer(attemptLines) && |outputLines| - 1 == ImpossibleRows)
      || (LayoutAnswer(outputLines, cs) && LayoutAnswer(attemptLines, cs) && |attemptLines| == |outputLines|)
  {
    VerifyAccepts(outputLines, cs, None);
    var ours := Verify(outputLines, cs, None);
    if ours.error.None? {
      VerifyAccepts(attemptLines, cs, ours.rows);
    }
  }

  // ---------------------------------------------------------------------
  // Balls are neither lost nor made
  // ---------------------------------------------------------------------

  /** The balls under column k after the first j columns of a row have let theirs fall. */
  function Partial(s: string, balls: seq<int>, k: nat, j: nat): int
    requires |s| == |balls| && k < |s| && j <= |s|
  {
    (if k < j && s[k] == '.' then balls[k] else 0)
    + (if 1 <= k <= j && s[k - 1] == '\\' then balls[k - 1] else 0)
    + (if k + 1 < j && s[k + 1] == '/' then balls[k + 1] else 0)
  }

  function PartialRow(s: string, balls: seq<int>, j: nat): (r: seq<int>)
    requires |s| == |balls| && j <= |s|
    ensures |r| == |s|
  {
    seq(|s|, k requires 0 <= k < |s| => Partial(s, balls, k, j))
  }

  /** Where the ball of column j goes. */
  function Target(s: string, j: nat): int
    requires j < |s|
  {
    if s[j] == '.' then j else if s[j] == '\\' then j + 1 else j - 1
  }

  /** Letting column j fall adds its balls to its target column and nowhere else. */
  lemma PartialStep(s: string, balls: seq<int>, j: nat)
    requires |s| == |balls| && j < |s| && IsCell(s[j]) && s[0] == '.' && s[|s| - 1] == '.'
    ensures 0 <= Target(s, j) < |s|
    ensures PartialRow(s, balls, j + 1) ==
      PartialRow(s, balls, j)[Target(s, j) := PartialRow(s, balls, j)[Target(s, j)] + balls[j]]
  {
  }

  lemma {:induction false} SumConst(n: nat, v: int)
    ensures Sum(seq(n, _ => v)) == n * v
  {
    if n > 0 {
      SumConst(n - 1, v);
      assert seq(n, _ => v)[..n - 1] == seq(n - 1, _ => v);
    }
  }

  /** The first j columns' balls are all somewhere after they fall. */
  lemma {:induction false} PartialSum(s: string, balls: seq<int>, j: nat)
    requires |s| == |balls| && j <= |s| && |s| >= 1 && s[0] == '.' && s[|s| - 1] == '.'
    requires forall k | 0 <= k < |s| :: IsCell(s[k])
    ensures Sum(PartialRow(s, balls, j)) == Sum(balls[..j])
  {
    if j == 0 {
      SumConst(|s|, 0);
      assert PartialRow(s, balls, 0) == seq(|s|, _ => 0);
    } else {
      PartialSum(s, balls, j - 1);
      PartialStep(s, balls, j - 1);
      SumUpdate(PartialRow(s, balls, j - 1), Target(s, j - 1), balls[j - 1]);
      assert balls[..j][..j - 1] == balls[..j - 1];
    }
  }

  /** A row of valid cells with empty outer columns keeps every ball. */
  lemma FallSum(s: string, balls: seq<int>)
    requires |s| == |balls| >= 1 && s[0] == '.' && s[|s| - 1] == '.'
    requires forall k | 0 <= k < |s| :: IsCell(s[k])
    ensures Sum(Fall(s, balls)) == Sum(balls)
  {
    PartialSum(s, balls, |s|);
    assert PartialRow(s, balls, |s|) == Fall(s, balls);
    assert balls[..|s|] == balls;
  }

  /** Through any number of allowed rows, the c balls stay c. */
  lemma {:induction false} SimulateSum(grid: seq<string>, c: nat)
    requires Rectangular(grid, c) && c >= 1
    requires forall i | 0 <= i < |grid| :: ValidRow(grid[i], c, false)
    ensures Sum(Simulate(grid, c)) == c
  {
    if grid == [] {
      SumConst(c, 1);
    } else {
      var init := grid[..|grid| - 1];
      SimulateSum(init, c);
      FallSum(grid[|grid| - 1], Simulate(init, c));
    }
  }

  /** An accepted layout answer can only exist for a case whose ball counts add up to the columns. */
  lemma LayoutConservesBalls(lines: seq<seq<string>>, cs: CaseInput)
    requires LayoutAnswer(lines, cs)
    ensures Sum(cs.balls) == cs.c
  {
    var grid := Firsts(lines[1..]);
    forall i | 0 <= i < |grid| ensures ValidRow(grid[i], cs.c, false) {
      assert ValidRow(grid[i], cs.c, i == |grid| - 1);
    }
    SimulateSum(grid, cs.c);
  }

  // ---------------------------------------------------------------------
  // The judge
  // ---------------------------------------------------------------------

  /** The judge's checks on one line of rows, column by column. */
  method CheckRow(line: seq<string>, c: int, last: bool) returns (e: Option<string>)
    requires c >= 1
    ensures e == RowError(line, c, last)
  {
    if |line| != 1 {
      return Some(BadFormat);
    }
    var s := line[0];
    if |s| != c {
      return Some(BadFormat);
    }
    for j := 0 to c
      invariant forall k | 0 <= k < j :: IsCell(s[k])
    {
      if s[j] != '.' && s[j] != '\\' && s[j] != '/' {
        return Some(BadFormat);
      }
    }
    if s[0] != '.' {
      return Some(BadLeftColumn);
    }
    if s[c - 1] != '.' {
      return Some(BadRightColumn);
    }
    for j := 0 to c
      invariant Scan(s, last, 0) == Scan(s, last, j)
    {
      if last && s[j] != '.' {
        return Some(BadBottomRow);
      }
      if s[j] == '\\' && s[j + 1] == '/' {
        return Some(BadVShape);
      }
    }
    return None;
  }

  /** The balls after one row, scattered column by column as the judge does. */
  method FallRow(s: string, balls: seq<int>) returns (next: seq<int>)
    requires |s| == |balls| >= 1 && s[0] == '.' && s[|s| - 1] == '.'
    ensures next == Fall(s, balls)
  {
    var c := |s|;
    next := seq(c, _ => 0);
    for j := 0 to c
      invariant next == PartialRow(s, balls, j)
    {
      if s[j] == '.' {
        next := next[j := next[j] + balls[j]];
      }
      if s[j] == '\\' {
        next := next[j + 1 := next[j + 1] + balls[j]];
      }
      if s[j] == '/' {
        next := next[j - 1 := next[j - 1] + balls[j]];
      }
    }
    assert PartialRow(s, balls, c) == Fall(s, balls);
  }

  /** The judge's VerifyOutput: checks an answer and returns its error or its row count. */
  method VerifyOutput(lines: seq<seq<string>>, cs: CaseInput, expected: Option<int>) returns (error: Option<string>, rows: Option<int>)
    requires cs.c >= 1
    ensures Outcome(error, rows) == Verify(lines, cs, expected)
  {
    if |lines| < 1 || |lines[0]| != 1 {
      return Some(BadFormat), None;
    }
    if |lines| == 1 {
      if Lower(lines[0][0]) != Lower(ImpossibleKeyword) {
        return Some(BadFormat), None;
      }
      if expected.None? || expected.value == ImpossibleRows {
        return None, Some(ImpossibleRows);
      }
      return Some(BadImpossibleClaim), None;
    }
    var parsed := PyInt(lines[0][0]);
    if parsed.None? {
      return Some(BadFormat), None;
    }
    var n := parsed.value;
    if |lines| != n + 1 {
      return Some(BadFormat), None;
    }
    var balls := seq(cs.c, _ => 1);
    for i := 1 to n + 1
      invariant Run(lines[1..], cs.c, i - 1) == Ok(balls)
    {
      assert lines[1..][i - 1] == lines[i];
      var e := CheckRow(lines[i], cs.c, i == n);
      if e.Some? {
        RunErrStays(lines[1..], cs.c, i, n);
        return e, None;
      }
      balls := FallRow(lines[i][0], balls);
    }
    if balls != cs.balls {
      return Some(BadBallsMismatch), None;
    }
    if expected.None? || expected.value == n {
      return None, Some(n);
    }
    if expected.value == ImpossibleRows {
      return Some(BadPossibleClaim), None;
    }
    if expected.value < n {
      return Some(BadMoreRows), None;
    }
    return Some(BadLessRows), None;
  }
}
