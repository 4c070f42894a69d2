/**
 * The Join The Ranks judge (Code Jam 2020, round 1B).  A deck holds the
 * ranks 0..R-1 repeated S times; one operation (a, b) takes the top a cards
 * and puts them under the next b cards.  An answer lists the operations that
 * sort the deck, and must use exactly ceil(R(S-1)/2) of them.
 */
module JoinTheRanks {
  import opened Wrappers
  import opened JudgeUtils

  datatype Operation = Operation(a: int, b: int)

  /** Operations the judge lets through on a deck of n cards. */
  predicate ValidOps(ops: seq<Operation>, n: int)
  {
    forall k | 0 <= k < |ops| :: 1 <= ops[k].a && 1 <= ops[k].b && ops[k].a + ops[k].b <= n
  }

  /** Where one operation sends the card at position i. */
  function Step(op: Operation, i: int): (j: int)
    ensures op.a >= 0 && op.b >= 0 && 0 <= i < op.a + op.b ==> 0 <= j < op.a + op.b
    ensures op.b >= 0 && i >= op.a + op.b ==> j == i
  {
    if i < op.a then i + op.b else if i < op.a + op.b then i - op.a else i
  }

  /** Where the whole list of operations sends the card at position i. */
  function Arrange(ops: seq<Operation>, i: int): int
  {
    if ops == [] then i else Arrange(ops[1..], Step(ops[0], i))
  }

  /** One operation on a deck: the top a cards go under the next b cards. */
  function Cut<T>(deck: seq<T>, op: Operation): (r: seq<T>)
    requires 1 <= op.a && 1 <= op.b && op.a + op.b <= |deck|
    ensures |r| == |deck|
    ensures forall i | 0 <= i < |deck| :: r[Step(op, i)] == deck[i]
  {
    deck[op.a..op.a + op.b] + deck[..op.a] + deck[op.a + op.b..]
  }

  /**
   * The deck after all operations.  The source places card i at position
   * Arrange(ops, i), which the second ensures states; the body applies the
   * cuts one after the other.
   */
  function ApplyOperations<T>(deck: seq<T>, ops: seq<Operation>): (r: seq<T>)
    requires ValidOps(ops, |deck|)
    ensures |r| == |deck|
    ensures forall i | 0 <= i < |deck| :: 0 <= Arrange(ops, i) < |deck| && r[Arrange(ops, i)] == deck[i]
    decreases |ops|
  {
    if ops == [] then deck
    else
      var next := Cut(deck, ops[0]);
      assert ValidOps(ops[1..], |next|) by {
        forall k | 0 <= k < |ops[1..]| ensures 1 <= ops[1..][k].a && 1 <= ops[1..][k].b && ops[1..][k].a + ops[1..][k].b <= |next| {
          assert ops[1..][k] == ops[k + 1];
        }
      }
      ApplyOperations(next, ops[1..])
  }

  /** One cut only rearranges the deck. */
  lemma CutPermutes<T>(deck: seq<T>, op: Operation)
    requires 1 <= op.a && 1 <= op.b && op.a + op.b <= |deck|
    ensures multiset(Cut(deck, op)) == multiset(deck)
  {
    assert deck == deck[..op.a] + deck[op.a..op.a + op.b] + deck[op.a + op.b..];
  }

  /** The operations after the first are valid on the same deck size. */
  lemma ValidOpsTail(ops: seq<Operation>, n: int)
    requires ops != [] && ValidOps(ops, n)
    ensures ValidOps(ops[1..], n)
  {
    forall k | 0 <= k < |ops[1..]| ensures 1 <= ops[1..][k].a && 1 <= ops[1..][k].b && ops[1..][k].a + ops[1..][k].b <= n {
      assert ops[1..][k] == ops[k + 1];
    }
  }

  /** The operations only rearrange the deck. */
  lemma {:induction false} ApplyOperationsPermutes<T>(deck: seq<T>, ops: seq<Operation>)
    requires ValidOps(ops, |deck|)
    ensures multiset(ApplyOperations(deck, ops)) == multiset(deck)
    decreases |ops|
  {
    if ops != [] {
      var next := Cut(deck, ops[0]);
      CutPermutes(deck, ops[0]);
      ValidOpsTail(ops, |deck|);
      ApplyOperationsPermutes(next, ops[1..]);
    }
  }

  /** Every card lands on a different position. */
  lemma ArrangeInjective(ops: seq<Operation>, n: int, i: int, j: int)
    requires ValidOps(ops, n) && 0 <= i < n && 0 <= j < n && i != j
    ensures Arrange(ops, i) != Arrange(ops, j)
  {
    var deck := seq(n, k => k);
    var r := ApplyOperations(deck, ops);
    assert r[Arrange(ops, i)] == i;
    assert r[Arrange(ops, j)] == j;
  }

  /** The examples the source checks, one lemma each. */
  lemma ApplyOperationsExampleSwap()
    ensures ApplyOperations([1, 2, 3, 4, 5], [Operation(1, 1)]) == [2, 1, 3, 4, 5]
  {
    var deck := [1, 2, 3, 4, 5];
    assert deck[1..2] == [2];
    assert deck[..1] == [1];
    assert deck[2..] == [3, 4, 5];
    var r := Cut(deck, Operation(1, 1));
    assert r == [2, 1, 3, 4, 5];
    var ops := [Operation(1, 1)];
    assert ops[1..] == [];
    assert ops[0] == Operation(1, 1);
    assert ApplyOperations(deck, ops) == ApplyOperations(r, ops[1..]);
  }

  lemma ApplyOperationsExampleBlocks()
    ensures ApplyOperations([1, 2, 3, 4, 5], [Operation(2, 2)]) == [3, 4, 1, 2, 5]
  {
    var deck := [1, 2, 3, 4, 5];
    assert deck[2..4] == [3, 4];
    assert deck[..2] == [1, 2];
    assert deck[4..] == [5];
    var r := Cut(deck, Operation(2, 2));
    assert r == [3, 4, 1, 2, 5];
    var ops := [Operation(2, 2)];
    assert ops[1..] == [];
    assert ops[0] == Operation(2, 2);
    assert ApplyOperations(deck, ops) == ApplyOperations(r, ops[1..]);
  }

  /** Two operations are two cuts in a row. */
  lemma ApplyTwo<T>(deck: seq<T>, first: Operation, second: Operation)
    requires 1 <= first.a && 1 <= first.b && first.a + first.b <= |deck|
    requires 1 <= second.a && 1 <= second.b && second.a + second.b <= |deck|
    ensures ApplyOperations(deck, [first, second]) == Cut(Cut(deck, first), second)
  {
    var ops := [first, second];
    assert ops[0] == first && ops[1..] == [second];
    ApplyFirst(deck, ops);
    var r := Cut(deck, first);
    assert [second][0] == second && [second][1..] == [];
    ApplyFirst(r, [second]);
  }

  /** The first operation is applied first. */
  lemma ApplyFirst<T>(deck: seq<T>, ops: seq<Operation>)
    requires ops != [] && ValidOps(ops, |deck|)
    ensures ValidOps(ops[1..], |deck|)
    ensures ApplyOperations(deck, ops) == ApplyOperations(Cut(deck, ops[0]), ops[1..])
  {
    ValidOpsTail(ops, |deck|);
  }

  lemma ApplyOperationsExampleTwo()
    ensures ApplyOperations([1, 2, 3, 4, 5], [Operation(1, 1), Operation(2, 3)]) == [3, 4, 5, 2, 1]
  {
    var deck := [1, 2, 3, 4, 5];
    assert deck[1..2] == [2];
    assert deck[..1] == [1];
    assert deck[2..] == [3, 4, 5];
    var r := Cut(deck, Operation(1, 1));
    assert r == [2, 1, 3, 4, 5];
    assert r[2..5] == [3, 4, 5];
    assert r[..2] == [2, 1];
    assert r[5..] == [];
    var r2 := Cut(r, Operation(2, 3));
    assert r2 == [3, 4, 5, 2, 1];
    ApplyTwo(deck, Operation(1, 1), Operation(2, 3));
  }

  /** The starting deck: ranks 0..R-1, S times over. */
  function StartDeck(ranks: nat, suits: nat): (d: seq<int>)
    ensures |d| == ranks * suits
    ensures forall k | 0 <= k < |d| :: 0 <= d[k] < ranks
  {
    if suits == 0 then [] else StartDeck(ranks, suits - 1) + seq(ranks, k => k)
  }

  predicate NonDecreasing(d: seq<int>)
  {
    forall i, j | 0 <= i < j < |d| :: d[i] <= d[j]
  }

  /** ceil(R(S-1)/2), the fewest operations that sort the deck. */
  function RequiredOps(ranks: int, suits: int): (k: int)
    ensures 2 * k == ranks * (suits - 1) || 2 * k == ranks * (suits - 1) + 1
  {
    (ranks * (suits - 1) + 1) / 2
  }

  const BadFormat := "Output is not well-formatted"
  const WrongNumberOfOperations := "Wrong number of operations"
  const UnableToParse := "Unable to parse operation values"
  const UnmatchedOperationsCount := "Number of operations in list does not match"
  const TooLarge := "Invalid operation. Sum of piles too large"
  const TooSmall := "Invalid operation. Pile size must be >= 0"
  const NotSorted := "Deck is not sorted after applying operations"
  const BadOutputPrefix := "Our output is incorrect: "

  /** The operations an answer lists, once every line has two integers. */
  function Operations(lines: seq<seq<int>>): (ops: seq<Operation>)
    requires forall k | 0 <= k < |lines| :: |lines[k]| == 2
    ensures |ops| == |lines| && forall k | 0 <= k < |lines| :: ops[k] == Operation(lines[k][0], lines[k][1])
  {
    seq(|lines|, k requires 0 <= k < |lines| => Operation(lines[k][0], lines[k][1]))
  }

  /** The first operation out of bounds, checked for size before sign. */
  function FirstInvalid(ops: seq<Operation>, n: int): (e: Option<string>)
    ensures e.None? <==> ValidOps(ops, n)
    ensures e.Some? ==> e.value == TooLarge || e.value == TooSmall
    ensures e.Some? && ops[0].a + ops[0].b > n ==> e.value == TooLarge
  {
    if ops == [] then None
    else if ops[0].a + ops[0].b > n then Some(TooLarge)
    else if ops[0].a <= 0 || ops[0].b <= 0 then Some(TooSmall)
    else
      var rest := FirstInvalid(ops[1..], n);
      assert ValidOps(ops, n) <==> ValidOps(ops[1..], n) by {
        if ValidOps(ops[1..], n) {
          forall k | 0 <= k < |ops| ensures 1 <= ops[k].a && 1 <= ops[k].b && ops[k].a + ops[k].b <= n {
            if k > 0 { assert ops[k] == ops[1..][k - 1]; }
          }
        }
      }
      rest
  }

  /**
   * An accepted answer: a first line with the required count, that many
   * lines of two integers, every operation in bounds, and a sorted deck
   * afterwards.
   */
  predicate Accepted(lines: seq<seq<string>>, ranks: nat, suits: nat)
  {
    |lines| >= 1 && |lines[0]| == 1
    && (forall k | 1 <= k < |lines| :: |lines[k]| == 2)
    && PyInt(lines[0][0]) == Some(RequiredOps(ranks, suits))
    && PyIntLines(lines[1..]).Some?
    && |lines| - 1 == RequiredOps(ranks, suits)
    && var ops := Operations(PyIntLines(lines[1..]).value);
       ValidOps(ops, ranks * suits)
       && NonDecreasing(ApplyOperations(StartDeck(ranks, suits), ops))
  }

  /** Checks one answer; None when it is accepted, else the first error. */
  function VerifyOutput(lines: seq<seq<string>>, ranks: nat, suits: nat): (e: Option<string>)
    ensures e.None? <==> Accepted(lines, ranks, suits)
    ensures |lines| >= 1 && |lines[0]| == 1 && (forall k | 1 <= k < |lines| :: |lines[k]| == 2)
      && PyInt(lines[0][0]).Some? && PyInt(lines[0][0]).value != RequiredOps(ranks, suits)
      ==> e == Some(WrongNumberOfOperations)
  {
    if |lines| == 0 || |lines[0]| != 1 then Some(BadFormat)
    else if exists k | 1 <= k < |lines| :: |lines[k]| != 2 then Some(BadFormat)
    else match PyInt(lines[0][0])
      case None => Some(UnableToParse)
      case Some(count) =>
        if count != RequiredOps(ranks, suits) then Some(WrongNumberOfOperations)
        else match PyIntLines(lines[1..])
          case None => Some(UnableToParse)
          case Some(values) =>
            assert forall k | 0 <= k < |values| :: |values[k]| == 2 by {
              forall k | 0 <= k < |values| ensures |values[k]| == 2 {
                assert PyInts(lines[1..][k]) == Some(values[k]) && lines[1..][k] == lines[k + 1];
              }
            }
            var ops := Operations(values);
            if |ops| != count then Some(UnmatchedOperationsCount)
            else match FirstInvalid(ops, ranks * suits)
              case Some(err) => Some(err)
              case None =>
                if !NonDecreasing(ApplyOperations(StartDeck(ranks, suits), ops)) then Some(NotSorted)
                else None
  }

  /** Our answer is checked first; an error in it is ours. */
  function VerifyCase(output: seq<seq<string>>, attempt: seq<seq<string>>, ranks: nat, suits: nat): (e: Option<string>)
    ensures !Accepted(output, ranks, suits) ==> e.Some? && |e.value| > |BadOutputPrefix| && e.value[..|BadOutputPrefix|] == BadOutputPrefix
    ensures e.None? <==> Accepted(output, ranks, suits) && Accepted(attempt, ranks, suits)
  {
    match VerifyOutput(output, ranks, suits)
    case Some(err) => Some(BadOutputPrefix + err)
    case None => VerifyOutput(attempt, ranks, suits)
  }
}
