/**
 * The Equal Sums judge (Code Jam 2012, round 1B).  Each case gives a set of
 * distinct positive integers; an answer is either IMPOSSIBLE or two lines,
 * each a different subset of the set, with equal sums.
 */
module EqualSums {
  import opened Wrappers
  import opened JudgeUtils
  import opened Sequences

  function NotInteger(n: int, w: string): string
  {
    "In case #" + Decimal(n) + ", " + w + " is not an integer."
  }

  function NotInInput(n: int, v: int): string
  {
    "In case #" + Decimal(n) + ", " + Decimal(v) + " is not in the input."
  }

  function UsedTwice(n: int, v: int): string
  {
    "In case #" + Decimal(n) + ", " + Decimal(v) + " is used twice."
  }

  function ExtraHeaderTokens(n: int): string
  {
    "Case header has extra tokens for case #" + Decimal(n) + "."
  }

  function NotTwoLines(n: int): string
  {
    "Case #" + Decimal(n) + " should have two lines."
  }

  function WronglyImpossible(n: int): string
  {
    "Case #" + Decimal(n) + " incorrectly declared impossible."
  }

  function NotThreeLines(n: int): string
  {
    "Case #" + Decimal(n) + " should have three lines."
  }

  function DuplicateSubsets(n: int): string
  {
    "Duplicate subsets in case #" + Decimal(n) + "."
  }

  function SumsDiffer(s1: int, s2: int, n: int): string
  {
    "Sums (" + Decimal(s1) + ", " + Decimal(s2) + ") not equal in case #" + Decimal(n) + "."
  }

  /** The values of a sequence, as a set. */
  function Elements(vs: seq<int>): set<int>
  {
    set v | v in vs
  }

  // ---------------------------------------------------------------------
  // ParseSubset
  // ---------------------------------------------------------------------

  /**
   * The subset one line names, its values in the order read, or the first
   * error: a token that is not an integer, a value not in the input, a value
   * named twice.
   */
  function Subset(tokens: seq<string>, n: int, numbers: set<int>): (r: Result<seq<int>, string>)
    ensures r.Ok? ==> |r.value| == |tokens|
    decreases |tokens|
  {
    if tokens == [] then Ok([])
    else
      var w := tokens[|tokens| - 1];
      match Subset(tokens[..|tokens| - 1], n, numbers)
      case Err(e) => Err(e)
      case Ok(vs) =>
        match ToInteger(w, None, None)
        case None => Err(NotInteger(n, w))
        case Some(v) =>
          if v !in numbers then Err(NotInInput(n, v))
          else if v in vs then Err(UsedTwice(n, v))
          else Ok(vs + [v])
  }

  /** What an accepted line is: integers, each from the input, none repeated. */
  lemma {:induction false} SubsetSound(tokens: seq<string>, n: int, numbers: set<int>)
    requires Subset(tokens, n, numbers).Ok?
    ensures var vs := Subset(tokens, n, numbers).value;
      && (forall k | 0 <= k < |tokens| :: ToInteger(tokens[k], None, None) == Some(vs[k]))
      && Elements(vs) <= numbers
      && Distinct(vs)
    decreases |tokens|
  {
    if tokens != [] {
      var m := |tokens| - 1;
      SubsetSound(tokens[..m], n, numbers);
      var vs := Subset(tokens, n, numbers).value;
      assert vs[..m] == Subset(tokens[..m], n, numbers).value;
      assert forall k | 0 <= k < m :: tokens[..m][k] == tokens[k];
    }
  }

  /** A line of integers, each from the input and none repeated, is accepted as exactly those values. */
  lemma {:induction false} SubsetComplete(tokens: seq<string>, n: int, numbers: set<int>, vs: seq<int>)
    requires |vs| == |tokens| && Distinct(vs) && Elements(vs) <= numbers
    requires forall k | 0 <= k < |tokens| :: ToInteger(tokens[k], None, None) == Some(vs[k])
    ensures Subset(tokens, n, numbers) == Ok(vs)
    decreases |tokens|
  {
    if tokens != [] {
      var m := |tokens| - 1;
      assert vs[m] in Elements(vs);
      assert Elements(vs[..m]) <= Elements(vs);
      SubsetComplete(tokens[..m], n, numbers, vs[..m]);
      assert vs[m] !in vs[..m];
      assert vs[..m] + [vs[m]] == vs;
    }
  }

  /** Once a prefix of the line is refused, the whole line is refused with the same error. */
  lemma {:induction false} SubsetErrStays(tokens: seq<string>, n: int, numbers: set<int>, j: int)
    requires 0 <= j <= |tokens| && Subset(tokens[..j], n, numbers).Err?
    ensures Subset(tokens, n, numbers) == Subset(tokens[..j], n, numbers)
    decreases |tokens|
  {
    if j < |tokens| {
      var m := |tokens| - 1;
      assert tokens[..m][..j] == tokens[..j];
      SubsetErrStays(tokens[..m], n, numbers, j);
    } else {
      assert tokens[..j] == tokens;
    }
  }

  /** The judge's ParseSubset: a loop that collects the values into a set, stopping at the first error. */
  method ParseSubset(tokens: seq<string>, n: int, numbers: set<int>) returns (r: Result<seq<int>, string>, result: set<int>)
    ensures r == Subset(tokens, n, numbers)
    ensures r.Ok? ==> result == Elements(r.value)
  {
    result := {};
    var order: seq<int> := [];
    var k := 0;
    while k < |tokens|
      invariant 0 <= k <= |tokens|
      invariant Subset(tokens[..k], n, numbers) == Ok(order)
      invariant result == Elements(order)
    {
      assert tokens[..k + 1][..k] == tokens[..k];
      var value := ToInteger(tokens[k], None, None);
      if value.None? {
        r := Err(NotInteger(n, tokens[k]));
        SubsetErrStays(tokens, n, numbers, k + 1);
        return;
      }
      var v := value.value;
      if v !in numbers {
        r := Err(NotInInput(n, v));
        SubsetErrStays(tokens, n, numbers, k + 1);
        return;
      }
      if v in result {
        r := Err(UsedTwice(n, v));
        SubsetErrStays(tokens, n, numbers, k + 1);
        return;
      }
      result := result + {v};
      order := order + [v];
      k := k + 1;
    }
    assert tokens[..k] == tokens;
    r := Ok(order);
  }

  // ---------------------------------------------------------------------
  // JudgeCase
  // ---------------------------------------------------------------------

  /** The contestant declared IMPOSSIBLE: the first content line is that one word. */
  predicate DeclaresImpossible(attempt: seq<seq<string>>)
  {
    |attempt| >= 2 && attempt[1] == ["impossible"]
  }

  /**
   * The judge's JudgeCase on one case's lines; the first line is what follows
   * "Case #n:" on the header.  None when the answer is accepted.
   */
  function JudgeCase(n: int, numbers: set<int>, isPossible: bool, attempt: seq<seq<string>>): (r: Option<string>)
    requires |attempt| >= 1
    ensures attempt[0] != [] ==> r == Some(ExtraHeaderTokens(n))
    ensures attempt[0] == [] && DeclaresImpossible(attempt) ==>
      (r == None <==> |attempt| == 2 && !isPossible)
  {
    if attempt[0] != [] then Some(ExtraHeaderTokens(n))
    else if |attempt| >= 2 && |attempt[1]| == 1 && attempt[1][0] == "impossible" then
      if |attempt| != 2 then Some(NotTwoLines(n))
      else if isPossible then Some(WronglyImpossible(n))
      else None
    else if |attempt| != 3 then Some(NotThreeLines(n))
    else match Subset(attempt[1], n, numbers)
      case Err(e) => Some(e)
      case Ok(s1) =>
        match Subset(attempt[2], n, numbers)
        case Err(e) => Some(e)
        case Ok(s2) =>
          if Elements(s1) == Elements(s2) then Some(DuplicateSubsets(n))
          else if Sum(s1) != Sum(s2) then Some(SumsDiffer(Sum(s1), Sum(s2), n))
          else None
  }

  /** Two different subsets of the input with the same sum, written one per line. */
  ghost predicate EqualSumPair(numbers: set<int>, s1: seq<int>, s2: seq<int>)
  {
    && Distinct(s1) && Distinct(s2)
    && Elements(s1) <= numbers && Elements(s2) <= numbers
    && Elements(s1) != Elements(s2)
    && SetSum(Elements(s1)) == SetSum(Elements(s2))
  }

  /**
   * A claimed answer is accepted exactly when both lines are read as subsets
   * of the input, and those are different and have equal sums.
   */
  lemma JudgeCaseAnswer(n: int, numbers: set<int>, isPossible: bool, attempt: seq<seq<string>>)
    requires |attempt| == 3 && attempt[0] == [] && !DeclaresImpossible(attempt)
    ensures JudgeCase(n, numbers, isPossible, attempt) == None <==>
      && Subset(attempt[1], n, numbers).Ok? && Subset(attempt[2], n, numbers).Ok?
      && EqualSumPair(numbers, Subset(attempt[1], n, numbers).value, Subset(attempt[2], n, numbers).value)
  {
    var r1 := Subset(attempt[1], n, numbers);
    var r2 := Subset(attempt[2], n, numbers);
    if r1.Ok? && r2.Ok? {
      SubsetSound(attempt[1], n, numbers);
      SubsetSound(attempt[2], n, numbers);
      SumIsSetSum(r1.value);
      SumIsSetSum(r2.value);
    }
  }

  /** A line is read as the values vs exactly when it parses to them, and they are distinct and from the input. */
  lemma SubsetIff(tokens: seq<string>, n: int, numbers: set<int>, vs: seq<int>)
    ensures Subset(tokens, n, numbers) == Ok(vs) <==>
      Parses(tokens, vs) && Distinct(vs) && Elements(vs) <= numbers
  {
    if Subset(tokens, n, numbers) == Ok(vs) {
      SubsetSound(tokens, n, numbers);
    }
    if Parses(tokens, vs) && Distinct(vs) && Elements(vs) <= numbers {
      SubsetComplete(tokens, n, numbers, vs);
    }
  }

  /** Each token of the line is an integer, read as the matching entry of vs. */
  predicate Parses(tokens: seq<string>, vs: seq<int>)
  {
    |vs| == |tokens| && forall k | 0 <= k < |tokens| :: ToInteger(tokens[k], None, None) == Some(vs[k])
  }

  // ---------------------------------------------------------------------
  // The sum of a set
  // ---------------------------------------------------------------------

  /** Python's `sum` of a set: its elements added up, in no particular order. */
  ghost function SetSum(s: set<int>): int
  {
    if s == {} then 0
    else
      SomeElement(s);
      var x :| x in s;
      x + SetSum(s - {x})
  }

  lemma NoneEmpty(s: set<int>)
    requires forall x :: x !in s
    ensures s == {}
  {
    forall x | x in s
      ensures false
    {
    }
  }

  lemma SomeElement(s: set<int>)
    requires s != {}
    ensures exists x :: x in s
  {
    if !exists x :: x in s {
      NoneEmpty(s);
      assert false;
    }
  }

  /** Taking out any element first gives the same sum. */
  lemma {:induction false} SetSumRemove(s: set<int>, y: int)
    requires y in s
    ensures SetSum(s) == y + SetSum(s - {y})
    decreases |s|
  {
    var x :| x in s && SetSum(s) == x + SetSum(s - {x});
    if x != y {
      SetSumRemove(s - {x}, y);
      SetSumRemove(s - {y}, x);
      assert s - {x} - {y} == s - {y} - {x};
    }
  }

  /** The sum of distinct values read in order is the sum of their set. */
  lemma {:induction false} SumIsSetSum(vs: seq<int>)
    requires Distinct(vs)
    ensures Sum(vs) == SetSum(Elements(vs))
    decreases |vs|
  {
    if vs != [] {
      var m := |vs| - 1;
      assert Distinct(vs[..m]);
      SumIsSetSum(vs[..m]);
      assert vs[m] !in vs[..m];
      assert Elements(vs) - {vs[m]} == Elements(vs[..m]);
      SetSumRemove(Elements(vs), vs[m]);
    }
  }
}
