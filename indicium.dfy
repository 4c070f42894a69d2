/**
 * The Indicium judge (Code Jam 2020, qualification round).  For a size N
 * and a trace K the answer is IMPOSSIBLE, or POSSIBLE followed by an N by N
 * Latin square (every row and every column holds 1..N) whose main diagonal
 * adds up to K.  Tokens reach the judge lower-cased.
 */
module Indicium {
  import opened Wrappers
  import opened JudgeUtils
  import opened Sequences

  const BadOutputPrefix := "Our output is incorrect:"

  function BadOutput(e: string): string
  {
    BadOutputPrefix + " " + e
  }

  const BadFormat := "Output is not well-formatted"
  const WrongNoSolution := "Contestant did not find solution"
  const ContestantOnlyAnswer := BadOutput("Contestant found answer but we do not")
  const Possible := "possible"
  const Impossible := "impossible"

  function RowWrongLength(i: int, len: int): string
  {
    "Row " + Decimal(i) + " has " + Decimal(len) + " elements"
  }

  function RowNotPermutation(i: int): string
  {
    "Row " + Decimal(i) + " is not a permutation of [1, N]"
  }

  function ColumnNotPermutation(i: int): string
  {
    "Column " + Decimal(i) + " is not a permutation of [1, N]"
  }

  function DiagonalSumWrong(s: int): string
  {
    "Main diagonal has invalid sum " + Decimal(s)
  }

  /** One case: the size of the square and the trace wanted. */
  datatype CaseInput = CaseInput(n: int, k: int)

  /** The judge's reading of an answer: an error or None, and whether it claims a square exists. */
  datatype Outcome = Outcome(error: Option<string>, hasAnswer: Option<bool>)

  function Fail(e: string): Outcome
  {
    Outcome(Some(e), None)
  }

  // ---------------------------------------------------------------------
  // Latin squares
  // ---------------------------------------------------------------------

  /** Python's `set(row)`. */
  function Elems(s: seq<int>): set<int>
  {
    set x | x in s
  }

  /** The numbers 1..n, as Python's `set(range(1, n + 1))`. */
  function OneToN(n: int): set<int>
  {
    Elems(seq(if n < 0 then 0 else n, i => i + 1))
  }

  /** Every row has n entries. */
  predicate Square(a: seq<seq<int>>, n: int)
  {
    |a| == n && forall i | 0 <= i < |a| :: |a[i]| == n
  }

  function Column(a: seq<seq<int>>, j: int): (col: seq<int>)
    requires Square(a, |a|) && 0 <= j < |a|
    ensures |col| == |a| && forall i | 0 <= i < |a| :: col[i] == a[i][j]
  {
    seq(|a|, i requires 0 <= i < |a| => a[i][j])
  }

  /** The square as the judge checks it: each row and each column holds exactly the numbers 1..n. */
  predicate LatinSquare(a: seq<seq<int>>, n: int)
  {
    && Square(a, n)
    && (forall i | 0 <= i < n :: Elems(a[i]) == OneToN(n))
    && forall j | 0 <= j < n :: Elems(Column(a, j)) == OneToN(n)
  }

  function Trace(a: seq<seq<int>>): int
    requires Square(a, |a|)
  {
    Sum(seq(|a|, i requires 0 <= i < |a| => a[i][i]))
  }

  predicate Distinct(s: seq<int>)
  {
    forall i, j | 0 <= i < j < |s| :: s[i] != s[j]
  }

  // ---------------------------------------------------------------------
  // The judge's reading of an answer
  // ---------------------------------------------------------------------

  /** The first row from i on without n entries. */
  function WrongLength(a: seq<seq<int>>, n: int, i: nat): Option<string>
    decreases |a| - i
  {
    if i >= |a| then None
    else if |a[i]| != n then Some(RowWrongLength(i, |a[i]|))
    else WrongLength(a, n, i + 1)
  }

  /** The first row from i on that is not a permutation of 1..n. */
  function BadRow(a: seq<seq<int>>, n: int, i: nat): Option<string>
    decreases |a| - i
  {
    if i >= |a| then None
    else if Elems(a[i]) != OneToN(n) then Some(RowNotPermutation(i))
    else BadRow(a, n, i + 1)
  }

  /** The first column from j on that is not a permutation of 1..n. */
  function BadColumn(a: seq<seq<int>>, n: int, j: nat): Option<string>
    requires Square(a, n)
    decreases n - j
  {
    if j >= n then None
    else if Elems(Column(a, j)) != OneToN(n) then Some(ColumnNotPermutation(j))
    else BadColumn(a, n, j + 1)
  }

  /** The checks on the square, in the judge's order. */
  function CheckSquare(a: seq<seq<int>>, cs: CaseInput): Outcome
    requires |a| == cs.n
  {
    match WrongLength(a, cs.n, 0)
    case Some(e) => Fail(e)
    case None =>
      WrongLengthNone(a, cs.n, 0);
      match BadRow(a, cs.n, 0)
      case Some(e) => Fail(e)
      case None =>
        match BadColumn(a, cs.n, 0)
        case Some(e) => Fail(e)
        case None =>
          if Trace(a) != cs.k then Fail(DiagonalSumWrong(Trace(a))) else Outcome(None, Some(true))
  }

  /** The judge's VerifyOutput. */
  function Verify(lines: seq<seq<string>>, cs: CaseInput): Outcome
  {
    if |lines| == 0 || |lines[0]| != 1 then Fail(BadFormat)
    else if lines[0][0] != Possible && lines[0][0] != Impossible then Fail(BadFormat)
    else if lines[0][0] == Impossible then
      if |lines| != 1 then Fail(BadFormat) else Outcome(None, Some(false))
    else if |lines| - 1 != cs.n then Fail(BadFormat)
    else match PyIntLines(lines[1..])
      case None => Fail(BadFormat)
      case Some(a) => CheckSquare(a, cs)
  }

  /**
   * The judge's verdict on a case: its own answer must pass; an attempt
   * claiming a square the judge has none for points at the judge's answer;
   * otherwise the attempt must pass and agree on whether a square exists.
   */
  function VerifyCase(outputLines: seq<seq<string>>, attemptLines: seq<seq<string>>, cs: CaseInput): Option<string>
  {
    var ours := Verify(outputLines, cs);
    if ours.error.Some? then Some(BadOutput(ours.error.value))
    else
      var theirs := Verify(attemptLines, cs);
      if ours.hasAnswer != Some(true) && theirs.hasAnswer == Some(true) then Some(ContestantOnlyAnswer)
      else if theirs.error.Some? then theirs.error
      else if ours.hasAnswer == Some(true) && theirs.hasAnswer != Some(true) then Some(WrongNoSolution)
      else None
  }

  // ---------------------------------------------------------------------
  // What the judge accepts
  // ---------------------------------------------------------------------

  lemma {:induction false} WrongLengthNone(a: seq<seq<int>>, n: int, i: nat)
    ensures WrongLength(a, n, i).None? <==> forall r | i <= r < |a| :: |a[r]| == n
    decreases |a| - i
  {
    if i < |a| {
      WrongLengthNone(a, n, i + 1);
    }
  }

  lemma {:induction false} BadRowNone(a: seq<seq<int>>, n: int, i: nat)
    ensures BadRow(a, n, i).None? <==> forall r | i <= r < |a| :: Elems(a[r]) == OneToN(n)
    decreases |a| - i
  {
    if i < |a| {
      BadRowNone(a, n, i + 1);
    }
  }

  lemma {:induction false} BadColumnNone(a: seq<seq<int>>, n: int, j: nat)
    requires Square(a, n)
    ensures BadColumn(a, n, j).None? <==> forall c | j <= c < n :: Elems(Column(a, c)) == OneToN(n)
    decreases n - j
  {
    if j < n {
      BadColumnNone(a, n, j + 1);
    }
  }

  /** The checks on the square pass exactly when it is a Latin square with the wanted trace. */
  lemma CheckSquareAccepts(a: seq<seq<int>>, cs: CaseInput)
    requires |a| == cs.n
    ensures CheckSquare(a, cs).error.None? <==> LatinSquare(a, cs.n) && Trace(a) == cs.k
    ensures CheckSquare(a, cs).error.None? ==> CheckSquare(a, cs).hasAnswer == Some(true)
  {
    WrongLengthNone(a, cs.n, 0);
    if Square(a, cs.n) {
      BadRowNone(a, cs.n, 0);
      BadColumnNone(a, cs.n, 0);
    }
  }

  /**
   * The judge accepts exactly the answer IMPOSSIBLE alone, or POSSIBLE
   * followed by the rows of a Latin square of the case's size and trace,
   * and reports which of the two it was.
   */
  lemma VerifyAccepts(lines: seq<seq<string>>, cs: CaseInput)
    ensures Verify(lines, cs).error.None? <==>
      || lines == [[Impossible]]
      || (|lines| >= 1 && lines[0] == [Possible] && PyIntLines(lines[1..]).Some?
          && LatinSquare(PyIntLines(lines[1..]).value, cs.n) && Trace(PyIntLines(lines[1..]).value) == cs.k)
    ensures Verify(lines, cs).error.None? ==> Verify(lines, cs).hasAnswer == Some(lines[0] == [Possible])
  {
    if |lines| >= 1 && |lines[0]| == 1 {
      assert lines[0] == [lines[0][0]];
      if lines[0][0] == Possible && |lines| - 1 == cs.n && PyIntLines(lines[1..]).Some? {
        CheckSquareAccepts(PyIntLines(lines[1..]).value, cs);
      }
    }
  }

  /** The case is accepted exactly when both answers pass and agree on whether a square exists. */
  lemma VerifyCaseAccepts(outputLines: seq<seq<string>>, attemptLines: seq<seq<string>>, cs: CaseInput)
    ensures VerifyCase(outputLines, attemptLines, cs).None? <==>
      && Verify(outputLines, cs).error.None?
      && Verify(attemptLines, cs).error.None?
      && Verify(attemptLines, cs).hasAnswer == Verify(outputLines, cs).hasAnswer
    ensures (Verify(outputLines, cs).error.None? && Verify(outputLines, cs).hasAnswer != Some(true) &&
             Verify(attemptLines, cs).hasAnswer == Some(true)) ==> VerifyCase(outputLines, attemptLines, cs) == Some(ContestantOnlyAnswer)
  {
    VerifyAccepts(outputLines, cs);
    VerifyAccepts(attemptLines, cs);
  }

  /** A list holds as many different values as entries exactly when no value repeats. */
  lemma {:induction false} ElemsSize(s: seq<int>)
    ensures |Elems(s)| <= |s|
    ensures |Elems(s)| == |s| <==> Distinct(s)
  {
    if s != [] {
      var init, last := s[..|s| - 1], s[|s| - 1];
      ElemsSize(init);
      assert Elems(s) == Elems(init) + {last};
      if last in Elems(init) {
        assert Elems(s) == Elems(init);
        var j :| 0 <= j < |init| && init[j] == last;
        assert s[j] == s[|s| - 1];
      } else {
        assert |Elems(s)| == |Elems(init)| + 1;
        if Distinct(s) {
          assert Distinct(init);
        }
      }
    }
  }

  lemma OneToNMembers(n: int)
    ensures forall x :: x in OneToN(n) <==> 1 <= x <= n
  {
    var s := seq(if n < 0 then 0 else n, i => i + 1);
    forall x | 1 <= x <= n ensures x in OneToN(n) {
      assert s[x - 1] == x;
    }
  }

  lemma OneToNSize(n: int)
    ensures |OneToN(n)| == if n < 0 then 0 else n
  {
    var s := seq(if n < 0 then 0 else n, i => i + 1);
    ElemsSize(s);
    assert Elems(s) == OneToN(n);
  }

  /** n entries holding all of 1..n hold each of them once. */
  lemma OnceEach(s: seq<int>, n: int)
    requires |s| == n && Elems(s) == OneToN(n)
    ensures Distinct(s)
  {
    ElemsSize(s);
    OneToNSize(n);
  }

  /** In an accepted square no number repeats in a row or in a column. */
  lemma LatinSquareDistinct(a: seq<seq<int>>, n: int)
    requires LatinSquare(a, n)
    ensures forall i, j, j' | 0 <= i < n && 0 <= j < j' < n :: a[i][j] != a[i][j']
    ensures forall j, i, i' | 0 <= j < n && 0 <= i < i' < n :: a[i][j] != a[i'][j]
  {
    forall i | 0 <= i < n ensures Distinct(a[i]) {
      OnceEach(a[i], n);
    }
    forall j | 0 <= j < n ensures Distinct(Column(a, j)) {
      OnceEach(Column(a, j), n);
    }
    forall j, i, i' | 0 <= j < n && 0 <= i < i' < n ensures a[i][j] != a[i'][j] {
      assert Column(a, j)[i] != Column(a, j)[i'];
    }
  }

  // ---------------------------------------------------------------------
  // The judge
  // ---------------------------------------------------------------------

  /** The judge's VerifyOutput, looping over rows and columns. */
  method VerifyOutput(lines: seq<seq<string>>, cs: CaseInput) returns (error: Option<string>, hasAnswer: Option<bool>)
    ensures Outcome(error, hasAnswer) == Verify(lines, cs)
  {
    if |lines| == 0 || |lines[0]| != 1 {
      return Some(BadFormat), None;
    }
    if lines[0][0] != Possible && lines[0][0] != Impossible {
      return Some(BadFormat), None;
    }
    if lines[0][0] == Impossible {
      if |lines| != 1 {
        return Some(BadFormat), None;
      }
      return None, Some(false);
    }
    var rows := lines[1..];
    if |rows| != cs.n {
      return Some(BadFormat), None;
    }
    var parsed := PyIntLines(rows);
    if parsed.None? {
      return Some(BadFormat), None;
    }
    var a := parsed.value;
    var n := cs.n;
    for i := 0 to |a|
      invariant WrongLength(a, n, 0) == WrongLength(a, n, i)
    {
      if |a[i]| != n {
        return Some(RowWrongLength(i, |a[i]|)), None;
      }
    }
    WrongLengthNone(a, n, 0);
    var oneToN := OneToN(n);
    for i := 0 to |a|
      invariant BadRow(a, n, 0) == BadRow(a, n, i)
    {
      if Elems(a[i]) != oneToN {
        return Some(RowNotPermutation(i)), None;
      }
    }
    for j := 0 to n
      invariant BadColumn(a, n, 0) == BadColumn(a, n, j)
    {
      var values := Elems(Column(a, j));
      if values != oneToN {
        return Some(ColumnNotPermutation(j)), None;
      }
    }
    var diagonal := Trace(a);
    if diagonal != cs.k {
      return Some(DiagonalSumWrong(diagonal)), None;
    }
    return None, Some(true);
  }
}
