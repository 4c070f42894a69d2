/**
 * The Pascal Walk judge (Code Jam 2020, round 1A).  A contestant walks down
 * Pascal's triangle from the top, one position per line, and the numbers at
 * the visited positions must add up to N.  The judge reads the numbers from
 * a table of binomial coefficients that it fills once, lazily, with every
 * entry capped at a large constant.
 */
module PascalWalk {
  import opened Wrappers
  import opened JudgeUtils
  import opened Sequences

  const MaxSteps: int := 500
  const MaxN: int := 1000000000
  const Infinity: int := MaxN * 10

  function Min(a: nat, b: nat): nat
  {
    if a < b then a else b
  }

  // ---------------------------------------------------------------------
  // Binomial coefficients
  // ---------------------------------------------------------------------

  /** The binomial coefficient by Pascal's rule: zero outside the triangle. */
  function Choose(r: int, k: int): nat
    decreases r
  {
    if r < 0 || k < 0 || k > r then 0
    else if k == 0 then 1
    else Choose(r - 1, k - 1) + Choose(r - 1, k)
  }

  function Fact(n: nat): (f: nat)
    ensures f >= 1
  {
    if n == 0 then 1 else n * Fact(n - 1)
  }

  /** The arithmetic of one step of Pascal's rule on factorials. */
  lemma PascalStep(a: int, b: int, k: int, r: int, fk1: int, frk: int, frk1: int, f: int)
    requires a * fk1 * frk == f
    requires k < r ==> frk == (r - k) * frk1 && b * (k * fk1) * frk1 == f
    requires k >= r ==> b == 0 && k == r
    ensures (a + b) * (k * fk1) * frk == r * f
  {
    assert a * (k * fk1) * frk == k * (a * fk1 * frk);
    if k < r {
      assert b * (k * fk1) * frk == (r - k) * (b * (k * fk1) * frk1);
    }
    assert (a + b) * (k * fk1) * frk == a * (k * fk1) * frk + b * (k * fk1) * frk;
  }

  /** Two numbers with the same product by the same positive factors are equal. */
  lemma Cancel(x: int, y: int, p: int, q: int, f: int)
    requires p >= 1 && q >= 1 && x * p * q == f && y * q * p == f
    ensures x == y
  {
    assert y * q * p == y * p * q;
    assert (x - y) * (p * q) == x * p * q - y * p * q;
  }

  /** Pascal's rule computes r! / (k! (r-k)!). */
  lemma {:induction false} ChooseFactorial(r: nat, k: nat)
    requires k <= r
    ensures Choose(r, k) * Fact(k) * Fact(r - k) == Fact(r)
  {
    if k > 0 {
      var a, b := Choose(r - 1, k - 1), Choose(r - 1, k);
      var f := Fact(r - 1);
      var fk1, frk := Fact(k - 1), Fact(r - k);
      ChooseFactorial(r - 1, k - 1);
      var frk1 := 1;
      if k < r {
        frk1 := Fact(r - 1 - k);
        ChooseFactorial(r - 1, k);
      }
      PascalStep(a, b, k, r, fk1, frk, frk1, f);
    }
  }

  /** The triangle is symmetric: C(r, k) == C(r, r - k). */
  lemma ChooseSymmetric(r: nat, k: nat)
    requires k <= r
    ensures Choose(r, k) == Choose(r, r - k)
  {
    ChooseFactorial(r, k);
    ChooseFactorial(r, r - k);
    assert r - (r - k) == k;
    Cancel(Choose(r, k), Choose(r, r - k), Fact(k), Fact(r - k), Fact(r));
  }

  /** What the judge's table holds: Pascal's rule with every sum capped at Infinity. */
  function Capped(r: int, k: int): nat
    decreases r
  {
    if r < 0 || k < 0 || k > r then 0
    else if k == 0 then 1
    else Min(Capped(r - 1, k - 1) + Capped(r - 1, k), Infinity)
  }

  /** Capping each sum caps the binomial coefficient itself. */
  lemma {:induction false} CappedChoose(r: int, k: int)
    ensures Capped(r, k) == Min(Choose(r, k), Infinity)
    decreases r
  {
    if 0 <= k <= r && k > 0 {
      CappedChoose(r - 1, k - 1);
      CappedChoose(r - 1, k);
    }
  }

  /** Row r of the judge's table: Capped(r, k) for every k in 0..MaxSteps. */
  predicate CappedRow(row: seq<nat>, r: int)
  {
    |row| == MaxSteps + 1 && forall k {:trigger row[k]} | 0 <= k <= MaxSteps :: row[k] == Capped(r, k)
  }

  /** One row of the table, each entry the capped sum of the two above it in the previous row. */
  method NextRow(prev: seq<nat>, r: nat) returns (row: seq<nat>)
    requires r <= MaxSteps
    requires r > 0 ==> CappedRow(prev, r - 1)
    ensures CappedRow(row, r)
  {
    row := seq(MaxSteps + 1, _ => 0);
    row := row[0 := 1];
    for k := 1 to r + 1
      invariant |row| == MaxSteps + 1
      invariant forall j {:trigger row[j]} | 0 <= j < k :: row[j] == Capped(r, j)
      invariant forall j | k <= j <= MaxSteps :: row[j] == 0
    {
      row := row[k := Min(prev[k - 1] + prev[k], Infinity)];
    }
    assert forall j | r < j <= MaxSteps :: Capped(r, j) == 0;
  }

  /** The global table of the judge, filled on first use. */
  class BinomialTable {
    var table: seq<seq<nat>>

    /** Every row r holds Capped(r, k) for k in 0..MaxSteps. */
    ghost predicate Filled()
      reads this
    {
      |table| == MaxSteps + 1
      && (forall r | 0 <= r < |table| :: |table[r]| == MaxSteps + 1)
      && forall r, k {:trigger table[r][k]} | 0 <= r < |table| && 0 <= k <= MaxSteps :: table[r][k] == Capped(r, k)
    }

    /** The table is either untouched or complete. */
    ghost predicate Valid()
      reads this
    {
      table == [] || Filled()
    }

    constructor()
      ensures Valid() && table == []
    {
      table := [];
    }

    /** Fills the table row by row; a table that has rows is left alone. */
    method PrecomputeBinomialCoefficients()
      requires Valid()
      modifies this
      ensures Filled()
      ensures old(table) != [] ==> table == old(table)
    {
      if table != [] {
        return;
      }
      for r := 0 to MaxSteps + 1
        invariant |table| == r
        invariant forall i | 0 <= i < r :: CappedRow(table[i], i)
      {
        var row := NextRow(if r == 0 then [] else table[r - 1], r);
        table := table + [row];
      }
    }

    /**
     * Position k of row r of Pascal's triangle, capped at Infinity; an error
     * when r or k exceeds MaxSteps.
     */
    method BinomialCoefficient(r: int, k: int) returns (c: Result<nat, string>)
      requires Valid()
      modifies this
      ensures Filled()
      ensures c.Err? <==> r > MaxSteps || k > MaxSteps
      ensures c.Err? ==> c.error == "Too large values for BinomialCoefficient: " + PairStr(r, k)
      ensures c.Ok? ==> c.value == Min(Choose(r, k), Infinity)
    {
      if table == [] {
        PrecomputeBinomialCoefficients();
      }
      if r > MaxSteps || k > MaxSteps {
        return Err("Too large values for BinomialCoefficient: " + PairStr(r, k));
      }
      CappedChoose(r, k);
      if r < 0 || k < 0 || k > r {
        return Ok(0);
      }
      return Ok(table[r][k]);
    }
  }

  // ---------------------------------------------------------------------
  // Walks
  // ---------------------------------------------------------------------

  /** A position (row, index), both counted from 1. */
  type Pos = (int, int)

  predicate InTriangle(p: Pos)
  {
    1 <= p.1 <= p.0
  }

  /** The six moves: along the row, up-left, up, down, down-right. */
  predicate Adjacent(p: Pos, q: Pos)
  {
    (q.0 == p.0 && (q.1 == p.1 - 1 || q.1 == p.1 + 1))
    || (q.0 == p.0 - 1 && (q.1 == p.1 - 1 || q.1 == p.1))
    || (q.0 == p.0 + 1 && (q.1 == p.1 + 1 || q.1 == p.1))
  }

  /** A walk the judge accepts the shape of. */
  predicate IsWalk(a: seq<Pos>)
  {
    1 <= |a| <= MaxSteps
    && (forall i | 0 <= i < |a| :: InTriangle(a[i]))
    && Distinct(a)
    && a[0] == (1, 1)
    && forall i | 1 <= i < |a| :: Adjacent(a[i - 1], a[i])
  }

  /** The sum the judge computes, each entry capped at Infinity. */
  function CappedTotal(a: seq<Pos>): nat
  {
    if a == [] then 0
    else CappedTotal(a[..|a| - 1]) + Min(Choose(a[|a| - 1].0 - 1, a[|a| - 1].1 - 1), Infinity)
  }

  /** The exact sum of the visited numbers. */
  function Total(a: seq<Pos>): nat
  {
    if a == [] then 0
    else Total(a[..|a| - 1]) + Choose(a[|a| - 1].0 - 1, a[|a| - 1].1 - 1)
  }

  /** Below Infinity the capped sum is the exact sum, and it reaches N exactly when the exact sum does. */
  lemma {:induction false} CappedTotalExact(a: seq<Pos>, n: int)
    requires n < Infinity
    ensures CappedTotal(a) <= Total(a)
    ensures CappedTotal(a) < Infinity || Total(a) < Infinity ==> CappedTotal(a) == Total(a)
    ensures CappedTotal(a) == n <==> Total(a) == n
  {
    if a != [] {
      CappedTotalExact(a[..|a| - 1], n);
    }
  }

  /** One more step adds the capped number at the new position. */
  lemma TotalStep(a: seq<Pos>, i: nat)
    requires i < |a|
    ensures CappedTotal(a[..i + 1]) == CappedTotal(a[..i]) + Min(Choose(a[i].0 - 1, a[i].1 - 1), Infinity)
  {
    assert a[..i + 1][..i] == a[..i];
  }

  lemma {:induction false} PrefixTotal(a: seq<Pos>, j: nat)
    requires j <= |a|
    ensures CappedTotal(a[..j]) <= CappedTotal(a)
    decreases |a| - j
  {
    if j < |a| {
      PrefixTotal(a, j + 1);
      assert a[..j + 1][..j] == a[..j];
    } else {
      assert a[..j] == a;
    }
  }

  /** A walk from the top cannot be deeper than its length. */
  lemma {:induction false} WalkDepth(a: seq<Pos>, i: nat)
    requires 1 <= |a| && a[0] == (1, 1)
    requires forall j | 1 <= j < |a| :: Adjacent(a[j - 1], a[j])
    requires i < |a|
    ensures a[i].0 <= i + 1
  {
    if i > 0 {
      WalkDepth(a, i - 1);
    }
  }

  /** Lines of exactly two integers as positions, or None. */
  function Pairs(rows: seq<seq<int>>): (r: Option<seq<Pos>>)
    ensures r.Some? <==> forall i | 0 <= i < |rows| :: |rows[i]| == 2
    ensures r.Some? ==> |r.value| == |rows| && forall i | 0 <= i < |rows| :: r.value[i] == (rows[i][0], rows[i][1])
  {
    if rows == [] then Some([])
    else if |rows[0]| != 2 then None
    else match Pairs(rows[1..])
      case None => None
      case Some(ps) => Some([(rows[0][0], rows[0][1])] + ps)
  }

  /** The positions of an answer: an empty first line, then lines of exactly two integers. */
  function Positions(lines: seq<seq<string>>): Option<seq<Pos>>
  {
    if |lines| == 0 || lines[0] != [] then None
    else match PyIntLines(lines[1..])
      case None => None
      case Some(rows) => Pairs(rows)
  }

  /** The answer is a walk and its capped sum is N. */
  predicate Accepted(lines: seq<seq<string>>, n: int)
  {
    Positions(lines).Some? && IsWalk(Positions(lines).value) && CappedTotal(Positions(lines).value) == n
  }

  const BadFormat := "Output is not well-formatted"
  const SumTooLarge := "Sum is too large"

  /**
   * The first loop of VerifyOutput: every line holds two values and names a
   * position inside the triangle.
   */
  method ParsePositions(nums: seq<seq<int>>) returns (r: Result<seq<Pos>, string>)
    ensures r.Ok? <==> Pairs(nums).Some? && forall i | 0 <= i < |nums| :: InTriangle(Pairs(nums).value[i])
    ensures r.Ok? ==> r == Ok(Pairs(nums).value)
    ensures r.Err? ==> r.error != SumTooLarge
  {
    var a: seq<Pos> := [];
    for i := 0 to |nums|
      invariant |a| == i
      invariant forall j | 0 <= j < i :: |nums[j]| == 2 && a[j] == (nums[j][0], nums[j][1]) && InTriangle(a[j])
    {
      if |nums[i]| != 2 {
        r := Err("Line " + Decimal(i) + " does not have 2 values");
        assert r.error[0] != SumTooLarge[0];
        return;
      }
      var p := (nums[i][0], nums[i][1]);
      if p.0 < 1 || p.1 < 1 || p.1 > p.0 {
        assert Pairs(nums).Some? ==> Pairs(nums).value[i] == p;
        r := Err("Invalid position: " + PairStr(p.0, p.1));
        assert r.error[0] != SumTooLarge[0];
        return;
      }
      a := a + [p];
    }
    assert Pairs(nums).value == a;
    return Ok(a);
  }

  /** The table's number at a position inside the judge's bounds. */
  method PositionValue(t: BinomialTable, q: Pos) returns (c: nat)
    requires t.Valid() && InTriangle(q) && q.0 <= MaxSteps
    modifies t
    ensures t.Valid()
    ensures c == Min(Choose(q.0 - 1, q.1 - 1), Infinity)
  {
    var v := t.BinomialCoefficient(q.0 - 1, q.1 - 1);
    c := v.value;
  }

  /** The adjacency error, which is never the too-large message. */
  function NotAdjacentMessage(q: Pos, prev: Pos): (m: string)
    ensures m != SumTooLarge
  {
    var m := "Position " + PairStr(q.0, q.1) + " is not adjacent to " + PairStr(prev.0, prev.1);
    assert m[0] != SumTooLarge[0];
    m
  }

  /** The too-small error, which is never the too-large message. */
  function TooSmallMessage(s: int): (m: string)
    ensures m != SumTooLarge
  {
    var m := "Sum is too small: " + Decimal(s);
    assert m[11] != SumTooLarge[11];
    m
  }

  /**
   * The second half of VerifyOutput: the walk from (1, 1) step by step,
   * checking adjacency and stopping as soon as the running sum exceeds N.
   */
  method WalkSum(t: BinomialTable, a: seq<Pos>, n: int) returns (r: Option<string>)
    requires t.Valid()
    requires 1 <= |a| <= MaxSteps && a[0] == (1, 1) && forall i | 0 <= i < |a| :: InTriangle(a[i])
    modifies t
    ensures t.Valid()
    ensures r.None? <==> (forall i | 1 <= i < |a| :: Adjacent(a[i - 1], a[i])) && CappedTotal(a) == n
    ensures r == Some(SumTooLarge) ==> CappedTotal(a) > n
  {
    var prev: Pos := (1, 1);
    var s := 1;
    assert a[..1] == [a[0]];
    for i := 1 to |a|
      invariant prev == a[i - 1] && prev.0 <= i
      invariant forall j | 1 <= j < i :: Adjacent(a[j - 1], a[j])
      invariant s == CappedTotal(a[..i]) && (i > 1 ==> s <= n)
      invariant t.Valid()
    {
      var q := a[i];
      if !Adjacent(prev, q) {
        return Some(NotAdjacentMessage(q, prev));
      }
      assert 1 <= q.1 <= q.0 <= i + 1 <= MaxSteps;
      var c := PositionValue(t, q);
      TotalStep(a, i);
      s := s + c;
      if s > n {
        PrefixTotal(a, i + 1);
        return Some(SumTooLarge);
      }
      prev := q;
    }
    assert a[..|a|] == a;
    if n != s {
      return Some(TooSmallMessage(s));
    }
    return None;
  }

  /**
   * Checks one case's answer; None when it is correct, or the first error
   * in the judge's order: format, step count, values per line, positions,
   * uniqueness, starting point, adjacency and the running sum.
   */
  method VerifyOutput(t: BinomialTable, lines: seq<seq<string>>, n: int) returns (r: Option<string>)
    requires t.Valid()
    modifies t
    ensures t.Valid()
    ensures r.None? <==> Accepted(lines, n)
    ensures |lines| > 0 && lines[0] == [] && |lines| - 1 > MaxSteps ==> r == Some("Too many steps: " + Decimal(|lines| - 1))
    ensures r == Some(SumTooLarge) ==> Positions(lines).Some? && CappedTotal(Positions(lines).value) > n
  {
    if |lines| == 0 || lines[0] != [] {
      return Some(BadFormat);
    }
    var steps := lines[1..];
    if |steps| == 0 {
      return Some(BadFormat);
    }
    if |steps| > MaxSteps {
      return Some("Too many steps: " + Decimal(|steps|));
    }
    var rows := PyIntLines(steps);
    if rows.None? {
      return Some(BadFormat);
    }
    var nums := rows.value;
    assert Positions(lines) == Pairs(nums);
    var parsed := ParsePositions(nums);
    if parsed.Err? {
      return Some(parsed.error);
    }
    var a := parsed.value;
    DistinctCard(a);
    if |set p: Pos | p in a| != |a| {
      return Some("Positions not unique");
    }
    if a[0] != (1, 1) {
      return Some("Wrong starting point: " + PairStr(a[0].0, a[0].1));
    }
    r := WalkSum(t, a, n);
  }

  /** Our own answer is checked first; its error is reported as ours. */
  method VerifyCase(t: BinomialTable, output: seq<seq<string>>, attempt: seq<seq<string>>, n: int) returns (r: Option<string>)
    requires t.Valid()
    modifies t
    ensures t.Valid()
    ensures r.None? <==> Accepted(output, n) && Accepted(attempt, n)
    ensures !Accepted(output, n) ==> r.Some? && |r.value| >= 24 && r.value[..24] == "Our output is incorrect:"
  {
    var e := VerifyOutput(t, output, n);
    if e.Some? {
      return Some("Our output is incorrect: " + e.value);
    }
    r := VerifyOutput(t, attempt, n);
  }
}
