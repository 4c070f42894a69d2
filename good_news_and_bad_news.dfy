/**
 * The Good News and Bad News judge (Code Jam 2017, round 3).  F friends and
 * P ordered pairs (g, r): along each pair, g tells r some nonzero amount of
 * news, at most F² in absolute value (negative amounts are bad news).  An
 * answer gives one amount per pair, and every friend must receive exactly as
 * much net news as they give.
 */
module GoodNewsAndBadNews {
  import opened Wrappers
  import opened JudgeUtils

  const AttemptFalseNegative := "Got IMPOSSIBLE when answer exists."
  const BadFormat := "Answer had wrong number of lines or tokens."
  const BadValue := "Out-of-range or zero value."
  const NonInteger := "At least one value was not an integer."
  const OutputFalseNegative := "Attempt grid is correct for IMPOSSIBLE case."
  const UnbalancedNews := "At least one friend gives more/less news than they receive."
  const WrongNumValues := "Number of values given does not match number of pairs."

  function BadOutput(e: string): string
  {
    "Our output is incorrect: " + e
  }

  /** A test case: the number of friends and the ordered pairs (giver, receiver), friends counted from 1. */
  datatype Case = Case(f: int, pairs: seq<(int, int)>)

  /** The input guarantees that every pair names two of the F friends. */
  predicate WellFormed(c: Case)
  {
    c.f >= 0 && forall k | 0 <= k < |c.pairs| :: 1 <= c.pairs[k].0 <= c.f && 1 <= c.pairs[k].1 <= c.f
  }

  /** How the judge classifies an answer, whether it comes from the reference or from a contestant. */
  datatype Answer = Impossible | Incorrect(error: string) | Possible

  /** An amount the judge refuses: zero, or more than F² in absolute value. */
  predicate OutOfRange(f: int, v: int)
  {
    v == 0 || v > MaxNews(f) || -v > MaxNews(f)
  }

  /** The largest amount allowed along one pair: F². */
  function MaxNews(f: int): int
  {
    f * f
  }

  // ---------------------------------------------------------------------
  // What a correct answer is
  // ---------------------------------------------------------------------

  /** The net news friend x receives: what arrives along pairs into x minus what leaves along pairs out of x. */
  function Net(pairs: seq<(int, int)>, values: seq<int>, x: int): int
    requires |values| == |pairs|
  {
    if pairs == [] then 0
    else
      var k := |pairs| - 1;
      Net(pairs[..k], values[..k], x)
        + (if pairs[k].1 == x then values[k] else 0)
        - (if pairs[k].0 == x then values[k] else 0)
  }

  /** One amount per pair, each allowed, and every friend's news balanced. */
  predicate ValidAnswer(c: Case, values: seq<int>)
  {
    && |values| == |c.pairs|
    && (forall k | 0 <= k < |values| :: !OutOfRange(c.f, values[k]))
    && forall x | 1 <= x <= c.f :: Net(c.pairs, values, x) == 0
  }

  // ---------------------------------------------------------------------
  // The judge's bookkeeping: one running total per friend
  // ---------------------------------------------------------------------

  function ZeroTotals(f: int): (z: seq<int>)
    requires f >= 0
    ensures |z| == f
  {
    seq(f, _ => 0)
  }

  /** The totals list after the first k amounts have been taken from their givers and added to their receivers. */
  function Totals(c: Case, values: seq<int>, k: int): (t: seq<int>)
    requires WellFormed(c) && |values| == |c.pairs| && 0 <= k <= |c.pairs|
    ensures |t| == c.f
  {
    if k == 0 then ZeroTotals(c.f)
    else
      Pass(Totals(c, values, k - 1), c.pairs[k - 1], values[k - 1])
  }

  /** The amount v passed along pair p: taken from the giver's total and added to the receiver's. */
  function Pass(t: seq<int>, p: (int, int), v: int): (t': seq<int>)
    requires 1 <= p.0 <= |t| && 1 <= p.1 <= |t|
    ensures |t'| == |t|
  {
    var t' := t[p.0 - 1 := t[p.0 - 1] - v];
    t'[p.1 - 1 := t'[p.1 - 1] + v]
  }

  /** Each running total is that friend's net news over the pairs seen so far. */
  lemma {:induction false} TotalsNet(c: Case, values: seq<int>, k: int)
    requires WellFormed(c) && |values| == |c.pairs| && 0 <= k <= |c.pairs|
    ensures forall x | 1 <= x <= c.f :: Totals(c, values, k)[x - 1] == Net(c.pairs[..k], values[..k], x)
  {
    if k > 0 {
      TotalsNet(c, values, k - 1);
      assert c.pairs[..k][..k - 1] == c.pairs[..k - 1];
      assert values[..k][..k - 1] == values[..k - 1];
    }
  }

  /** The totals all come back to zero exactly when every friend is balanced. */
  lemma BalancedTotals(c: Case, values: seq<int>)
    requires WellFormed(c) && |values| == |c.pairs|
    ensures Totals(c, values, |values|) == ZeroTotals(c.f) <==> forall x | 1 <= x <= c.f :: Net(c.pairs, values, x) == 0
  {
    TotalsNet(c, values, |values|);
    assert c.pairs[..|values|] == c.pairs && values[..|values|] == values;
    var t := Totals(c, values, |values|);
    if forall x | 1 <= x <= c.f :: Net(c.pairs, values, x) == 0 {
      forall i | 0 <= i < c.f
        ensures t[i] == ZeroTotals(c.f)[i]
      {
        assert t[(i + 1) - 1] == Net(c.pairs, values, i + 1);
      }
    } else {
      var x :| 1 <= x <= c.f && Net(c.pairs, values, x) != 0;
      assert t[x - 1] == Net(c.pairs, values, x);
      assert ZeroTotals(c.f)[x - 1] == 0;
      assert t != ZeroTotals(c.f);
    }
  }

  // ---------------------------------------------------------------------
  // VerifyOutput
  // ---------------------------------------------------------------------

  /** The classification of one tokenized answer, checks in the judge's order. */
  function Classify(c: Case, lines: seq<seq<string>>): Answer
    requires WellFormed(c)
  {
    if |lines| != 1 || lines[0] == [] then Incorrect(BadFormat)
    else
      var line := lines[0];
      if line[0] == "impossible" then
        if |line| != 1 then Incorrect(BadFormat) else Impossible
      else if |line| != |c.pairs| then Incorrect(WrongNumValues)
      else match PyInts(line)
        case None => Incorrect(NonInteger)
        case Some(values) => Check(c, values)
  }

  /** The checks on the amounts themselves, once they have been read. */
  function Check(c: Case, values: seq<int>): Answer
    requires WellFormed(c) && |values| == |c.pairs|
  {
    if exists k | 0 <= k < |values| :: OutOfRange(c.f, values[k]) then Incorrect(BadValue)
    else if Totals(c, values, |values|) != ZeroTotals(c.f) then Incorrect(UnbalancedNews)
    else Possible
  }

  /** The amounts pass exactly when they form a valid answer. */
  lemma CheckValid(c: Case, values: seq<int>)
    requires WellFormed(c) && |values| == |c.pairs|
    ensures Check(c, values) == Possible <==> ValidAnswer(c, values)
  {
    BalancedTotals(c, values);
    if exists k | 0 <= k < |values| :: OutOfRange(c.f, values[k]) {
      var k :| 0 <= k < |values| && OutOfRange(c.f, values[k]);
      assert !ValidAnswer(c, values);
    } else {
      assert forall k | 0 <= k < |values| :: !OutOfRange(c.f, values[k]);
      if Check(c, values) == Possible {
        assert Totals(c, values, |values|) == ZeroTotals(c.f);
        assert ValidAnswer(c, values);
      } else {
        assert Totals(c, values, |values|) != ZeroTotals(c.f);
      }
    }
  }

  /** The judge's VerifyOutput: a running total per friend, stopping at the first refused amount. */
  method VerifyOutput(c: Case, lines: seq<seq<string>>) returns (a: Answer)
    requires WellFormed(c)
    ensures a == Classify(c, lines)
  {
    if |lines| != 1 || lines[0] == [] {
      return Incorrect(BadFormat);
    }
    var line := lines[0];
    if line[0] == "impossible" {
      if |line| != 1 {
        return Incorrect(BadFormat);
      }
      return Impossible;
    }
    if |line| != |c.pairs| {
      return Incorrect(WrongNumValues);
    }
    var parsed := PyInts(line);
    if parsed.None? {
      return Incorrect(NonInteger);
    }
    var values := parsed.value;
    var bad, total := Tally(c, values);
    assert Classify(c, lines) == Check(c, values);
    if bad {
      return Incorrect(BadValue);
    }
    if total != ZeroTotals(c.f) {
      return Incorrect(UnbalancedNews);
    }
    return Possible;
  }

  /** The loop of VerifyOutput: the running totals, or bad when some amount is refused. */
  method Tally(c: Case, values: seq<int>) returns (bad: bool, totals: seq<int>)
    requires WellFormed(c) && |values| == |c.pairs|
    ensures bad <==> exists k | 0 <= k < |values| :: OutOfRange(c.f, values[k])
    ensures !bad ==> totals == Totals(c, values, |values|)
  {
    totals := ZeroTotals(c.f);
    var k := 0;
    while k < |values|
      invariant 0 <= k <= |values|
      invariant totals == Totals(c, values, k)
      invariant forall j | 0 <= j < k :: !OutOfRange(c.f, values[j])
    {
      if OutOfRange(c.f, values[k]) {
        return true, [];
      }
      totals := Pass(totals, c.pairs[k], values[k]);
      k := k + 1;
    }
    bad := false;
  }

  /** A contestant's claim is accepted exactly when it is one line of integers forming a valid answer. */
  lemma ClassifyPossible(c: Case, lines: seq<seq<string>>)
    requires WellFormed(c)
    ensures Classify(c, lines) == Possible <==>
      |lines| == 1 && lines[0] != [] && lines[0][0] != "impossible" &&
      PyInts(lines[0]).Some? && ValidAnswer(c, PyInts(lines[0]).value)
  {
    if |lines| == 1 && lines[0] != [] && PyInts(lines[0]).Some? && |lines[0]| == |c.pairs| {
      CheckValid(c, PyInts(lines[0]).value);
    }
  }

  /** IMPOSSIBLE is recognised only when it stands alone on the one line. */
  lemma ClassifyImpossible(c: Case, lines: seq<seq<string>>)
    requires WellFormed(c)
    ensures Classify(c, lines) == Impossible <==> lines == [["impossible"]]
  {
    if Classify(c, lines) == Impossible {
      assert |lines| == 1 && lines[0] == [lines[0][0]];
    }
  }

  /** Printing a valid answer's amounts, one line, gives an answer the judge accepts. */
  lemma PrintedValidAnswer(c: Case, values: seq<int>)
    requires WellFormed(c) && ValidAnswer(c, values) && |values| >= 1
    ensures Classify(c, [seq(|values|, k requires 0 <= k < |values| => Decimal(values[k]))]) == Possible
  {
    var line := seq(|values|, k requires 0 <= k < |values| => Decimal(values[k]));
    forall k | 0 <= k < |values|
      ensures PyInt(line[k]) == Some(values[k])
    {
      PyIntDecimal(values[k]);
    }
    assert PyInts(line).value == values;
    PyIntDecimal(values[0]);
    assert PyInt("impossible").None? by {
      assert !IsDigit("impossible"[0]);
      AllDigitsIff("impossible");
    }
    ClassifyPossible(c, [line]);
  }

  // ---------------------------------------------------------------------
  // VerifyCase
  // ---------------------------------------------------------------------

  /**
   * The judge's VerifyCase on the reference's answer and the contestant's:
   * None when the case is accepted, otherwise the error.
   */
  function VerifyCase(c: Case, outputLines: seq<seq<string>>, attemptLines: seq<seq<string>>): (r: Option<string>)
    requires WellFormed(c)
    ensures Classify(c, attemptLines).Incorrect? ==> r == Some(Classify(c, attemptLines).error)
    ensures !Classify(c, attemptLines).Incorrect? && Classify(c, outputLines).Incorrect? ==>
      r == Some(BadOutput(Classify(c, outputLines).error))
    ensures r == None <==>
      !Classify(c, attemptLines).Incorrect? && !Classify(c, outputLines).Incorrect? &&
      (Classify(c, outputLines) == Impossible <==> Classify(c, attemptLines) == Impossible)
  {
    var output := Classify(c, outputLines);
    var attempt := Classify(c, attemptLines);
    if attempt.Incorrect? then Some(attempt.error)
    else if output.Incorrect? then Some(BadOutput(output.error))
    else if output == Impossible then (if attempt == Impossible then None else Some(OutputFalseNegative))
    else if attempt == Impossible then Some(AttemptFalseNegative)
    else None
  }

  /** Accepting the contestant's claimed answer means it is a valid answer, whatever the reference says. */
  lemma VerifyCaseSound(c: Case, outputLines: seq<seq<string>>, attemptLines: seq<seq<string>>)
    requires WellFormed(c)
    requires VerifyCase(c, outputLines, attemptLines) == None && Classify(c, attemptLines) != Impossible
    ensures PyInts(attemptLines[0]).Some? && ValidAnswer(c, PyInts(attemptLines[0]).value)
  {
    ClassifyPossible(c, attemptLines);
  }
}
