/**
 * The Sorting Permutation Unit checker (Code Jam 2019, world finals).  The
 * contestant designs at most P permutations of size N and then, for each of
 * the K given arrays, a list of at most S of them; applying the listed
 * permutations in order must sort the array.  The checker carries the same
 * strict integer reader as the Fence Design judge, used from there.
 */
module SortingPermutationUnit {
  import opened Wrappers
  import opened Sequences
  import FenceDesign
  import JudgeUtils

  const BadOutputEmpty := "Bad output format: case output is empty"
  const BadOutputLine1 := "Bad output format: 1st line should be 'Case #T:\n'"
  const BadOutputLine2 := "Bad output format: 2nd line should contain number of permutations"
  const TooFewPermutations := "Bad output format: Too few permutations"
  const TooManyPermutations := "Bad output format: Too many permutations"
  const IncorrectNLines := "Bad output format: number of lines in output is incorrect"
  const BadOutputLine3 := "Bad output format: line 3..nPermutation+2 must contain exactly N elements"
  const NotPermutation := "Bad output format: not a permutation"
  const OperationWrongNElements := "Bad output format: operation line does not have correct number of elements"
  const TooManyOperations := "Bad output: Too many operations"
  const OperationOutOfRange := "Bad output format: operation not in [1, nPermutation]"
  const NotSorted := "Wrong: Not sorted"

  /** At most p permutations, at most s of them per array, k arrays of size n. */
  datatype CaseInput = CaseInput(p: int, s: int, k: int, n: int, arrays: seq<seq<int>>)

  /** The permutations (zero-based) and, per array, the zero-based permutation numbers to apply. */
  datatype CaseOutput = CaseOutput(permutations: seq<seq<int>>, operations: seq<seq<int>>)

  // ---------------------------------------------------------------------
  // Permutations
  // ---------------------------------------------------------------------

  /** The source's IsZeroBasedPermutation: sorted, the array reads 0, 1, ..., n-1. */
  predicate IsZeroBasedPermutation(a: seq<int>)
  {
    IntLessTotal();
    var sorted := SortBy(a, IntLess);
    forall i | 0 <= i < |sorted| :: sorted[i] == i
  }

  /** Every entry is an index into the array, and no entry repeats. */
  predicate IndexBijection(a: seq<int>)
  {
    (forall i | 0 <= i < |a| :: 0 <= a[i] < |a|) && Distinct(a)
  }

  /** A sorted sequence with distinct entries increases strictly. */
  lemma StrictlySorted(s: seq<int>)
    requires SortedBy(s, IntLess) && Distinct(s)
    ensures forall i, j | 0 <= i < j < |s| :: s[i] < s[j]
  {
  }

  /** A strictly increasing sequence of n values in [0, n) is 0, 1, ..., n-1. */
  lemma {:induction false} IncreasingIdentity(s: seq<int>)
    requires forall i, j | 0 <= i < j < |s| :: s[i] < s[j]
    requires forall i | 0 <= i < |s| :: 0 <= s[i] < |s|
    ensures forall i | 0 <= i < |s| :: s[i] == i
  {
    forall i | 0 <= i < |s|
      ensures s[i] == i
    {
      AtLeastIndex(s, i);
      AtMostIndex(s, i);
    }
  }

  lemma {:induction false} AtLeastIndex(s: seq<int>, i: nat)
    requires forall a, b | 0 <= a < b < |s| :: s[a] < s[b]
    requires forall a | 0 <= a < |s| :: 0 <= s[a]
    requires i < |s|
    ensures s[i] >= i
  {
    if i > 0 {
      AtLeastIndex(s, i - 1);
    }
  }

  lemma {:induction false} AtMostIndex(s: seq<int>, i: nat)
    requires forall a, b | 0 <= a < b < |s| :: s[a] < s[b]
    requires forall a | 0 <= a < |s| :: s[a] < |s|
    requires i < |s|
    ensures s[i] <= i
    decreases |s| - i
  {
    if i < |s| - 1 {
      AtMostIndex(s, i + 1);
    }
  }

  /** Sorting 0, 1, ..., n-1 out of a sequence means its entries are the indices, each once. */
  lemma ZeroBasedPermutationIff(a: seq<int>)
    ensures IsZeroBasedPermutation(a) <==> IndexBijection(a)
  {
    if IsZeroBasedPermutation(a) {
      ZeroBasedIsBijection(a);
    }
    if IndexBijection(a) {
      BijectionIsZeroBased(a);
    }
  }

  lemma ZeroBasedIsBijection(a: seq<int>)
    requires IsZeroBasedPermutation(a)
    ensures IndexBijection(a)
  {
    IntLessTotal();
    var s := SortBy(a, IntLess);
    ZeroBasedInRange(a, s);
    ZeroBasedDistinct(a, s);
  }

  lemma ZeroBasedInRange(a: seq<int>, s: seq<int>)
    requires multiset(s) == multiset(a) && forall i | 0 <= i < |s| :: s[i] == i
    ensures forall i | 0 <= i < |a| :: 0 <= a[i] < |a|
  {
    forall i | 0 <= i < |a|
      ensures 0 <= a[i] < |a|
    {
      assert a[i] in multiset(s);
    }
  }

  lemma ZeroBasedDistinct(a: seq<int>, s: seq<int>)
    requires multiset(s) == multiset(a) && forall i | 0 <= i < |s| :: s[i] == i
    ensures Distinct(a)
  {
    forall i, j | 0 <= i < j < |a|
      ensures a[i] != a[j]
    {
      if a[i] == a[j] {
        TwoOccurrences(a, a[i]);
        TwoOccurrences(s, a[i]);
        assert false;
      }
    }
  }

  lemma BijectionIsZeroBased(a: seq<int>)
    requires IndexBijection(a)
    ensures IsZeroBasedPermutation(a)
  {
    IntLessTotal();
    var s := SortBy(a, IntLess);
    forall i, j | 0 <= i < j < |s|
      ensures s[i] != s[j]
    {
      if s[i] == s[j] {
        TwoOccurrences(s, s[i]);
        TwoOccurrences(a, s[i]);
        assert false;
      }
    }
    forall i | 0 <= i < |s|
      ensures 0 <= s[i] < |s|
    {
      assert s[i] in multiset(a);
      var j :| 0 <= j < |a| && a[j] == s[i];
    }
    StrictlySorted(s);
    IncreasingIdentity(s);
  }

  /** The source's PermuteArray, as a value: entry i of the result is entry p[i] of a. */
  function Permute(a: seq<int>, p: seq<int>): (r: seq<int>)
    requires |p| == |a| && forall i | 0 <= i < |p| :: 0 <= p[i] < |a|
  {
    seq(|a|, i requires 0 <= i < |a| => a[p[i]])
  }

  /** The source's PermuteArray, filling the result entry by entry. */
  method PermuteArray(a: seq<int>, p: seq<int>) returns (r: seq<int>)
    requires |p| == |a| && forall i | 0 <= i < |p| :: 0 <= p[i] < |a|
    ensures r == Permute(a, p)
  {
    var permuted := new int[|a|];
    for i := 0 to |a|
      invariant forall j | 0 <= j < i :: permuted[j] == a[p[j]]
    {
      permuted[i] := a[p[i]];
    }
    r := permuted[..];
  }

  /** Permuting by p and then by q permutes by p composed with q. */
  function Compose(p: seq<int>, q: seq<int>): (r: seq<int>)
    requires |q| == |p| && forall i | 0 <= i < |q| :: 0 <= q[i] < |p|
    ensures |r| == |p|
  {
    seq(|q|, i requires 0 <= i < |q| => p[q[i]])
  }

  predicate IndexMap(p: seq<int>, n: int)
  {
    |p| == n && forall i | 0 <= i < |p| :: 0 <= p[i] < n
  }

  lemma PermuteCompose(a: seq<int>, p: seq<int>, q: seq<int>)
    requires IndexMap(p, |a|) && IndexMap(q, |a|)
    ensures IndexMap(Compose(p, q), |a|)
    ensures Permute(Permute(a, p), q) == Permute(a, Compose(p, q))
  {
  }

  /** The identity permutation of size n. */
  function Identity(n: nat): (r: seq<int>)
    ensures IndexMap(r, n)
  {
    seq(n, i requires 0 <= i < n => i)
  }

  lemma PermuteIdentity(a: seq<int>)
    ensures Permute(a, Identity(|a|)) == a
  {
  }

  // ---------------------------------------------------------------------
  // Judging
  // ---------------------------------------------------------------------

  /** What the parser guarantees: permutations of size n, and operation lists naming them. */
  predicate WellFormed(input: CaseInput, out: CaseOutput)
  {
    && input.n >= 0
    && (forall j | 0 <= j < |out.permutations| :: IndexMap(out.permutations[j], input.n))
    && |out.operations| == input.k
    && (forall i, o | 0 <= i < |out.operations| && 0 <= o < |out.operations[i]| ::
          0 <= out.operations[i][o] < |out.permutations|)
  }

  /** The array after the first |ops| operations, applied in order. */
  function Apply(a: seq<int>, perms: seq<seq<int>>, ops: seq<int>): (r: seq<int>)
    requires forall j | 0 <= j < |perms| :: IndexMap(perms[j], |a|)
    requires forall o | 0 <= o < |ops| :: 0 <= ops[o] < |perms|
    ensures |r| == |a|
  {
    if ops == [] then a else Permute(Apply(a, perms, ops[..|ops| - 1]), perms[ops[|ops| - 1]])
  }

  /** The permutation the operations amount to together. */
  function Composite(n: nat, perms: seq<seq<int>>, ops: seq<int>): (r: seq<int>)
    requires forall j | 0 <= j < |perms| :: IndexMap(perms[j], n)
    requires forall o | 0 <= o < |ops| :: 0 <= ops[o] < |perms|
    ensures IndexMap(r, n)
  {
    if ops == [] then Identity(n) else Compose(Composite(n, perms, ops[..|ops| - 1]), perms[ops[|ops| - 1]])
  }

  /** Applying the operations one by one permutes the array by their composite. */
  lemma {:induction false} ApplyComposite(a: seq<int>, perms: seq<seq<int>>, ops: seq<int>)
    requires forall j | 0 <= j < |perms| :: IndexMap(perms[j], |a|)
    requires forall o | 0 <= o < |ops| :: 0 <= ops[o] < |perms|
    ensures Apply(a, perms, ops) == Permute(a, Composite(|a|, perms, ops))
  {
    if ops == [] {
      PermuteIdentity(a);
    } else {
      var front := ops[..|ops| - 1];
      ApplyComposite(a, perms, front);
      PermuteCompose(a, Composite(|a|, perms, front), perms[ops[|ops| - 1]]);
    }
  }

  /** No entry is greater than the one after it. */
  predicate AdjacentSorted(a: seq<int>)
  {
    forall i | 0 <= i < |a| - 1 :: a[i] <= a[i + 1]
  }

  /** The source's IsSorted. */
  method IsSorted(a: seq<int>) returns (b: bool)
    ensures b <==> AdjacentSorted(a)
  {
    var i := 0;
    while i < |a| - 1
      invariant 0 <= i <= |a| && (i < |a| || |a| == 0)
      invariant forall j | 0 <= j < i :: a[j] <= a[j + 1]
    {
      if a[i] > a[i + 1] {
        return false;
      }
      i := i + 1;
    }
    return true;
  }

  /** Comparing neighbours decides that the array is non-decreasing throughout. */
  lemma AdjacentSortedIff(a: seq<int>)
    ensures AdjacentSorted(a) <==> NonDecreasing(a)
  {
    if AdjacentSorted(a) {
      forall i, j | 0 <= i < j < |a|
        ensures a[i] <= a[j]
      {
        SortedUpTo(a, i, j);
      }
    }
  }

  lemma {:induction false} SortedUpTo(a: seq<int>, i: nat, j: nat)
    requires AdjacentSorted(a) && i <= j < |a|
    ensures a[i] <= a[j]
    decreases j - i
  {
    if i < j {
      SortedUpTo(a, i, j - 1);
    }
  }

  /** Every entry is at most every later one. */
  predicate NonDecreasing(a: seq<int>)
  {
    forall i, j | 0 <= i < j < |a| :: a[i] <= a[j]
  }

  /** What the judge is given about the input: k arrays of size n. */
  predicate ValidInput(input: CaseInput)
  {
    input.k >= 0 && input.n >= 0 && |input.arrays| == input.k &&
    forall i | 0 <= i < input.k :: |input.arrays[i]| == input.n
  }

  /** The checker's verdict on a parsed answer: "" when every array ends up sorted. */
  function Judge(input: CaseInput, attempt: CaseOutput): string
    requires WellFormed(input, attempt)
    requires ValidInput(input)
  {
    if forall i | 0 <= i < input.k ::
      AdjacentSorted(Apply(input.arrays[i], attempt.permutations, attempt.operations[i]))
    then "" else NotSorted
  }

  /**
   * An answer is accepted exactly when, for every array, the composite of its
   * operations sorts it.
   */
  lemma JudgeSorts(input: CaseInput, attempt: CaseOutput)
    requires WellFormed(input, attempt)
    requires ValidInput(input)
    ensures Judge(input, attempt) == "" <==>
      forall i | 0 <= i < input.k ::
        NonDecreasing(Permute(input.arrays[i], Composite(input.n, attempt.permutations, attempt.operations[i])))
    ensures Judge(input, attempt) == "" || Judge(input, attempt) == NotSorted
  {
    forall i | 0 <= i < input.k
      ensures AdjacentSorted(Apply(input.arrays[i], attempt.permutations, attempt.operations[i])) <==>
        NonDecreasing(Permute(input.arrays[i], Composite(input.n, attempt.permutations, attempt.operations[i])))
    {
      ApplyComposite(input.arrays[i], attempt.permutations, attempt.operations[i]);
      AdjacentSortedIff(Apply(input.arrays[i], attempt.permutations, attempt.operations[i]));
    }
  }

  /** One array's operations, applied by reassigning the array. */
  method ApplyOperations(a0: seq<int>, perms: seq<seq<int>>, ops: seq<int>) returns (a: seq<int>)
    requires forall j | 0 <= j < |perms| :: IndexMap(perms[j], |a0|)
    requires forall o | 0 <= o < |ops| :: 0 <= ops[o] < |perms|
    ensures a == Apply(a0, perms, ops)
  {
    a := a0;
    for o := 0 to |ops|
      invariant a == Apply(a0, perms, ops[..o])
    {
      assert ops[..o + 1][..o] == ops[..o];
      a := PermuteArray(a, perms[ops[o]]);
    }
    assert ops[..|ops|] == ops;
  }

  /** The source's JudgeCase. */
  method JudgeCase(input: CaseInput, attempt: CaseOutput) returns (r: string)
    requires WellFormed(input, attempt)
    requires ValidInput(input)
    ensures r == Judge(input, attempt)
  {
    for i := 0 to input.k
      invariant forall j | 0 <= j < i ::
        AdjacentSorted(Apply(input.arrays[j], attempt.permutations, attempt.operations[j]))
    {
      var a := ApplyOperations(input.arrays[i], attempt.permutations, attempt.operations[i]);
      var sorted := IsSorted(a);
      if !sorted {
        return NotSorted;
      }
    }
    return "";
  }

  // ---------------------------------------------------------------------
  // Parsing an answer
  // ---------------------------------------------------------------------

  /** Reading each token with the strict integer reader, stopping at the first that fails. */
  function ParseInts(tokens: seq<string>): (r: Result<seq<int>, string>)
    ensures r.Ok? ==> |r.value| == |tokens|
    ensures r.Ok? ==> forall i | 0 <= i < |tokens| :: FenceDesign.IntInRange(tokens[i]) == Ok(r.value[i])
  {
    if tokens == [] then Ok([])
    else
      var front := tokens[..|tokens| - 1];
      assert forall i | 0 <= i < |front| :: front[i] == tokens[i];
      match ParseInts(front)
      case Err(e) => Err(e)
      case Ok(vs) =>
        match FenceDesign.IntInRange(tokens[|tokens| - 1])
        case Err(e) => Err(e)
        case Ok(v) => Ok(vs + [v])
  }

  /** The line fails to read exactly when one of its tokens does. */
  lemma {:induction false} ParseIntsFails(tokens: seq<string>)
    ensures ParseInts(tokens).Err? <==> exists i | 0 <= i < |tokens| :: FenceDesign.IntInRange(tokens[i]).Err?
  {
    if tokens != [] {
      var front := tokens[..|tokens| - 1];
      ParseIntsFails(front);
      assert forall i | 0 <= i < |front| :: front[i] == tokens[i];
    }
  }

  /** Once a prefix of the tokens fails to read, the whole line fails the same way. */
  lemma {:induction false} ParseIntsPrefixError(tokens: seq<string>, i: nat)
    requires i <= |tokens| && ParseInts(tokens[..i]).Err?
    ensures ParseInts(tokens) == ParseInts(tokens[..i])
    decreases |tokens| - i
  {
    if i < |tokens| {
      assert tokens[..i + 1][..i] == tokens[..i];
      ParseIntsPrefixError(tokens, i + 1);
    } else {
      assert tokens[..i] == tokens;
    }
  }

  function Decrement(vs: seq<int>): (r: seq<int>)
    ensures |r| == |vs| && forall i | 0 <= i < |vs| :: r[i] == vs[i] - 1
  {
    seq(|vs|, i requires 0 <= i < |vs| => vs[i] - 1)
  }

  /** One permutation line: n integers that, less one, form a zero-based permutation. */
  function ParsePermutation(line: seq<string>, n: int): Result<seq<int>, string>
  {
    if |line| != n then Err(BadOutputLine3)
    else match ParseInts(line)
      case Err(e) => Err(e)
      case Ok(vs) =>
        var p := Decrement(vs);
        if IsZeroBasedPermutation(p) then Ok(p) else Err(NotPermutation)
  }

  /** A permutation line is accepted only as a bijection on 0 .. n-1. */
  lemma ParsePermutationSound(line: seq<string>, n: int)
    ensures ParsePermutation(line, n).Ok? ==>
      IndexMap(ParsePermutation(line, n).value, n) && IndexBijection(ParsePermutation(line, n).value)
  {
    if ParsePermutation(line, n).Ok? {
      ZeroBasedIsBijection(ParsePermutation(line, n).value);
    }
  }

  /** The operation tokens: each an integer in [1, np], checked as it is read. */
  function ParseOperationList(tokens: seq<string>, np: int): (r: Result<seq<int>, string>)
    ensures r.Ok? ==> |r.value| == |tokens| && forall o | 0 <= o < |tokens| :: 0 <= r.value[o] < np
  {
    if tokens == [] then Ok([])
    else
      var front := tokens[..|tokens| - 1];
      match ParseOperationList(front, np)
      case Err(e) => Err(e)
      case Ok(ops) =>
        match FenceDesign.IntInRange(tokens[|tokens| - 1])
        case Err(e) => Err(e)
        case Ok(op) => if op < 1 || op > np then Err(OperationOutOfRange) else Ok(ops + [op - 1])
  }

  lemma {:induction false} OperationListPrefixError(tokens: seq<string>, np: int, i: nat)
    requires i <= |tokens| && ParseOperationList(tokens[..i], np).Err?
    ensures ParseOperationList(tokens, np) == ParseOperationList(tokens[..i], np)
    decreases |tokens| - i
  {
    if i < |tokens| {
      assert tokens[..i + 1][..i] == tokens[..i];
      OperationListPrefixError(tokens, np, i + 1);
    } else {
      assert tokens[..i] == tokens;
    }
  }

  /** One operation line: a count, then that many operations, at most s of them. */
  function ParseOperationLine(line: seq<string>, s: int, np: int): Result<seq<int>, string>
    requires |line| >= 1
  {
    match FenceDesign.IntInRange(line[0])
    case Err(e) => Err(e)
    case Ok(nOps) =>
      if |line| != nOps + 1 then Err(OperationWrongNElements)
      else if nOps > s then Err(TooManyOperations)
      else ParseOperationList(line[1..], np)
  }

  /** An operation line is accepted only with at most s operations, each naming a permutation. */
  lemma ParseOperationLineSound(line: seq<string>, s: int, np: int)
    requires |line| >= 1
    ensures ParseOperationLine(line, s, np).Ok? ==>
      |ParseOperationLine(line, s, np).value| == |line| - 1 && OperationsWithin(ParseOperationLine(line, s, np).value, s, np)
  {
  }

  /** Permutation lines l .. last, appended to those read before. */
  function ParsePermutations(lines: seq<seq<string>>, n: int, l: nat, last: nat, perms: seq<seq<int>>)
    : Result<seq<seq<int>>, string>
    requires l <= last + 1 <= |lines|
    decreases last + 1 - l
  {
    if l == last + 1 then Ok(perms)
    else match ParsePermutation(lines[l], n)
      case Err(e) => Err(e)
      case Ok(p) => ParsePermutations(lines, n, l + 1, last, perms + [p])
  }

  /** Every permutation read from lines l .. last is a bijection of size n, appended in order. */
  lemma {:induction false} ParsePermutationsSound(lines: seq<seq<string>>, n: int, l: nat, last: nat,
                                                  perms: seq<seq<int>>)
    requires l <= last + 1 <= |lines|
    ensures var r := ParsePermutations(lines, n, l, last, perms);
      r.Ok? ==> |r.value| == |perms| + (last + 1 - l) && r.value[..|perms|] == perms
    ensures var r := ParsePermutations(lines, n, l, last, perms);
      r.Ok? ==> forall j | |perms| <= j < |r.value| :: IndexMap(r.value[j], n) && IndexBijection(r.value[j])
    decreases last + 1 - l
  {
    if l < last + 1 && ParsePermutation(lines[l], n).Ok? {
      var p := ParsePermutation(lines[l], n).value;
      ParsePermutationSound(lines[l], n);
      ParsePermutationsSound(lines, n, l + 1, last, perms + [p]);
      var r := ParsePermutations(lines, n, l + 1, last, perms + [p]);
      if r.Ok? {
        assert r.value[..|perms| + 1] == perms + [p];
        assert r.value[..|perms|] == r.value[..|perms| + 1][..|perms|];
      }
    }
  }

  /** Operation lines l .. |lines|-1, appended to those read before. */
  function ParseOperations(lines: seq<seq<string>>, s: int, np: int, l: nat, ops: seq<seq<int>>)
    : Result<seq<seq<int>>, string>
    requires 1 <= l <= |lines| && Tokenized(lines)
    decreases |lines| - l
  {
    if l == |lines| then Ok(ops)
    else match ParseOperationLine(lines[l], s, np)
      case Err(e) => Err(e)
      case Ok(o) => ParseOperations(lines, s, np, l + 1, ops + [o])
  }

  /** Every operation list read from lines l onwards is within the limits, appended in order. */
  lemma {:induction false} ParseOperationsSound(lines: seq<seq<string>>, s: int, np: int, l: nat,
                                                ops: seq<seq<int>>)
    requires 1 <= l <= |lines| && Tokenized(lines)
    ensures var r := ParseOperations(lines, s, np, l, ops);
      r.Ok? ==> |r.value| == |ops| + (|lines| - l) && r.value[..|ops|] == ops
    ensures var r := ParseOperations(lines, s, np, l, ops);
      r.Ok? ==> forall j | |ops| <= j < |r.value| :: OperationsWithin(r.value[j], s, np)
    decreases |lines| - l
  {
    if l < |lines| && ParseOperationLine(lines[l], s, np).Ok? {
      var o := ParseOperationLine(lines[l], s, np).value;
      ParseOperationLineSound(lines[l], s, np);
      ParseOperationsSound(lines, s, np, l + 1, ops + [o]);
      var r := ParseOperations(lines, s, np, l + 1, ops + [o]);
      if r.Ok? {
        assert r.value[..|ops| + 1] == ops + [o];
        assert r.value[..|ops|] == r.value[..|ops| + 1][..|ops|];
      }
    }
  }

  /** The second line: how many permutations, between 1 and p. */
  function PermutationCount(token: string, p: int): Result<int, string>
  {
    match FenceDesign.IntInRange(token)
    case Err(e) => Err(e)
    case Ok(np) =>
      if np < 1 then Err(TooFewPermutations)
      else if np > p then Err(TooManyPermutations)
      else Ok(np)
  }

  /** The count is accepted exactly when the token reads as an integer between 1 and p. */
  lemma PermutationCountIff(token: string, p: int)
    ensures PermutationCount(token, p).Ok? <==>
      FenceDesign.IntInRange(token).Ok? && 1 <= FenceDesign.IntInRange(token).value <= p
    ensures PermutationCount(token, p).Ok? ==> PermutationCount(token, p) == FenceDesign.IntInRange(token)
  {
  }

  /**
   * The source keeps the reader's 64-bit result in a 32-bit int; on the
   * two's-complement targets the judge runs on, that keeps the value modulo
   * 2^32, read back as signed.
   */
  function Int32(v: int): (r: int)
    ensures -0x8000_0000 <= r < 0x8000_0000
    ensures (v - r) % 0x1_0000_0000 == 0
    ensures -0x8000_0000 <= v < 0x8000_0000 ==> r == v
  {
    (v + 0x8000_0000) % 0x1_0000_0000 - 0x8000_0000
  }

  /** The count as the source reads it: narrowed to 32 bits before the range checks. */
  function PermutationCountAsWritten(token: string, p: int): Result<int, string>
  {
    match FenceDesign.IntInRange(token)
    case Err(e) => Err(e)
    case Ok(v) =>
      var np := Int32(v);
      if np < 1 then Err(TooFewPermutations)
      else if np > p then Err(TooManyPermutations)
      else Ok(np)
  }

  /**
   * "4294967297" (2^32 + 1) passes the source's checks as one permutation,
   * although it exceeds every p the problem allows; the corrected reading
   * rejects it.
   */
  lemma NarrowedCountAccepted(p: int)
    requires 1 <= p < 0x1_0000_0001
    ensures PermutationCountAsWritten(JudgeUtils.Decimal(0x1_0000_0001), p) == Ok(1)
    ensures PermutationCount(JudgeUtils.Decimal(0x1_0000_0001), p) == Err(TooManyPermutations)
  {
    FenceDesign.IntInRangeDecimal(0x1_0000_0001);
    assert Int32(0x1_0000_0001) == 1;
  }

  /** Every later line of a tokenized case holds at least one token. */
  predicate Tokenized(lines: seq<seq<string>>)
  {
    forall m | 1 <= m < |lines| :: |lines[m]| >= 1
  }

  /**
   * The source's ParseCaseOutput on one case's tokenized lines; line 0 is
   * what is left of "Case #T:".  An accepted answer has between 1 and p
   * permutations of size n, and for each of the k arrays at most s
   * operations naming them.
   */
  function ParseCase(input: CaseInput, lines: seq<seq<string>>): Result<CaseOutput, string>
    requires ValidInput(input) && Tokenized(lines)
  {
    if |lines| == 0 then Err(BadOutputEmpty)
    else if |lines[0]| != 0 then Err(BadOutputLine1)
    else if |lines| <= 1 || |lines[1]| == 0 then Err(BadOutputLine2)
    else match PermutationCount(lines[1][0], input.p)
      case Err(e) => Err(e)
      case Ok(np) =>
        if |lines| != np + input.k + 2 then Err(IncorrectNLines)
        else match ParsePermutations(lines, input.n, 2, np + 1, [])
          case Err(e) => Err(e)
          case Ok(perms) =>
            match ParseOperations(lines, input.s, np, np + 2, [])
            case Err(e) => Err(e)
            case Ok(ops) => Ok(CaseOutput(perms, ops))
  }

  /** Whatever the parser accepts is an answer within the limits, ready to judge. */
  lemma ParseCaseSound(input: CaseInput, lines: seq<seq<string>>)
    requires ValidInput(input) && Tokenized(lines)
    ensures ParseCase(input, lines).Ok? ==> ValidAnswer(input, ParseCase(input, lines).value)
  {
    var r := ParseCase(input, lines);
    if r.Ok? {
      var np := PermutationCount(lines[1][0], input.p).value;
      ParsePermutationsSound(lines, input.n, 2, np + 1, []);
      ParseOperationsSound(lines, input.s, np, np + 2, []);
      var out := r.value;
      assert |out.operations| == input.k;
      forall i, o | 0 <= i < |out.operations| && 0 <= o < |out.operations[i]|
        ensures 0 <= out.operations[i][o] < |out.permutations|
      {
        assert OperationsWithin(out.operations[i], input.s, np);
      }
    }
  }

  // ---------------------------------------------------------------------
  // Parsing, step by step
  // ---------------------------------------------------------------------

  /** The source's IsZeroBasedPermutation: sort a copy, then compare entry i with i. */
  method CheckZeroBased(a: seq<int>) returns (b: bool)
    ensures b == IsZeroBasedPermutation(a)
  {
    IntLessTotal();
    var sorted := SortBy(a, IntLess);
    for i := 0 to |sorted|
      invariant forall j | 0 <= j < i :: sorted[j] == j
    {
      if sorted[i] != i {
        return false;
      }
    }
    return true;
  }

  /** Reading one permutation line into a zero-based permutation. */
  method ReadPermutation(line: seq<string>, n: int) returns (r: Result<seq<int>, string>)
    ensures r == ParsePermutation(line, n)
  {
    if |line| != n {
      return Err(BadOutputLine3);
    }
    var vs: seq<int> := [];
    for i := 0 to n
      invariant ParseInts(line[..i]) == Ok(vs)
    {
      var v := FenceDesign.ParseInt(line[i]);
      assert line[..i + 1][..i] == line[..i];
      if v.Err? {
        ParseIntsPrefixError(line, i + 1);
        return Err(v.error);
      }
      vs := vs + [v.value];
    }
    assert line[..n] == line;
    var permutation := Decrement(vs);
    var ok := CheckZeroBased(permutation);
    if !ok {
      return Err(NotPermutation);
    }
    return Ok(permutation);
  }

  /** Reading one operation line. */
  method ReadOperations(line: seq<string>, s: int, np: int) returns (r: Result<seq<int>, string>)
    requires |line| >= 1
    ensures r == ParseOperationLine(line, s, np)
  {
    var count := FenceDesign.ParseInt(line[0]);
    if count.Err? {
      return Err(count.error);
    }
    var nOps := count.value;
    if |line| != nOps + 1 {
      return Err(OperationWrongNElements);
    }
    if nOps > s {
      return Err(TooManyOperations);
    }
    var tokens := line[1..];
    var operation: seq<int> := [];
    for i := 0 to nOps
      invariant ParseOperationList(tokens[..i], np) == Ok(operation)
    {
      var op := FenceDesign.ParseInt(tokens[i]);
      assert tokens[..i + 1][..i] == tokens[..i];
      if op.Err? {
        OperationListPrefixError(tokens, np, i + 1);
        return Err(op.error);
      }
      if op.value < 1 || op.value > np {
        OperationListPrefixError(tokens, np, i + 1);
        return Err(OperationOutOfRange);
      }
      operation := operation + [op.value - 1];
    }
    assert tokens[..nOps] == tokens;
    return Ok(operation);
  }

  /** The source's ParseCaseOutput. */
  method ParseCaseOutput(input: CaseInput, lines: seq<seq<string>>) returns (r: Result<CaseOutput, string>)
    requires ValidInput(input) && Tokenized(lines)
    ensures r == ParseCase(input, lines)
  {
    if |lines| == 0 {
      return Err(BadOutputEmpty);
    }
    if |lines[0]| != 0 {
      return Err(BadOutputLine1);
    }
    if |lines| <= 1 || |lines[1]| == 0 {
      return Err(BadOutputLine2);
    }
    var count := FenceDesign.ParseInt(lines[1][0]);
    if count.Err? {
      return Err(count.error);
    }
    var np := count.value;
    assert PermutationCount(lines[1][0], input.p).Ok? ==> PermutationCount(lines[1][0], input.p).value == np;
    if np < 1 {
      return Err(TooFewPermutations);
    }
    if np > input.p {
      return Err(TooManyPermutations);
    }
    if |lines| != np + input.k + 2 {
      return Err(IncorrectNLines);
    }
    var perms := ReadPermutations(lines, input.n, np);
    if perms.Err? {
      return Err(perms.error);
    }
    var ops := ReadOperationLines(lines, input.s, np);
    if ops.Err? {
      return Err(ops.error);
    }
    return Ok(CaseOutput(perms.value, ops.value));
  }

  /** Lines 2 .. np+1: the permutations. */
  method ReadPermutations(lines: seq<seq<string>>, n: int, np: int) returns (r: Result<seq<seq<int>>, string>)
    requires 1 <= np && np + 2 <= |lines|
    ensures r == ParsePermutations(lines, n, 2, np + 1, [])
  {
    var perms: seq<seq<int>> := [];
    var l := 2;
    while l <= np + 1
      invariant 2 <= l <= np + 2
      invariant ParsePermutations(lines, n, 2, np + 1, []) == ParsePermutations(lines, n, l, np + 1, perms)
    {
      var p := ReadPermutation(lines[l], n);
      if p.Err? {
        return Err(p.error);
      }
      perms := perms + [p.value];
      l := l + 1;
    }
    return Ok(perms);
  }

  /** Lines np+2 .. to the end: the operation lists. */
  method ReadOperationLines(lines: seq<seq<string>>, s: int, np: int) returns (r: Result<seq<seq<int>>, string>)
    requires 1 <= np && np + 2 <= |lines| && Tokenized(lines)
    ensures r == ParseOperations(lines, s, np, np + 2, [])
  {
    var ops: seq<seq<int>> := [];
    var l := np + 2;
    while l < |lines|
      invariant np + 2 <= l <= |lines|
      invariant ParseOperations(lines, s, np, np + 2, []) == ParseOperations(lines, s, np, l, ops)
    {
      var o := ReadOperations(lines[l], s, np);
      if o.Err? {
        return Err(o.error);
      }
      ops := ops + [o.value];
      l := l + 1;
    }
    return Ok(ops);
  }

  // ---------------------------------------------------------------------
  // Printing an answer, and reading it back
  // ---------------------------------------------------------------------

  /** Each value rendered in decimal. */
  function FormatInts(vs: seq<int>): (r: seq<string>)
    ensures |r| == |vs|
  {
    seq(|vs|, i requires 0 <= i < |vs| => JudgeUtils.Decimal(vs[i]))
  }

  function Increment(vs: seq<int>): (r: seq<int>)
    ensures |r| == |vs|
  {
    seq(|vs|, i requires 0 <= i < |vs| => vs[i] + 1)
  }

  function OperationLine(ops: seq<int>): seq<string>
  {
    [JudgeUtils.Decimal(|ops|)] + FormatInts(Increment(ops))
  }

  /** The lines of a case answer as a contestant prints them, after "Case #T:". */
  function FormatAnswer(out: CaseOutput): seq<seq<string>>
  {
    [[], [JudgeUtils.Decimal(|out.permutations|)]]
    + PermutationLines(out.permutations) + OperationLines(out.operations)
  }

  function PermutationLines(perms: seq<seq<int>>): (r: seq<seq<string>>)
    ensures |r| == |perms|
  {
    seq(|perms|, j requires 0 <= j < |perms| => FormatInts(Increment(perms[j])))
  }

  function OperationLines(ops: seq<seq<int>>): (r: seq<seq<string>>)
    ensures |r| == |ops|
  {
    seq(|ops|, i requires 0 <= i < |ops| => OperationLine(ops[i]))
  }

  /** An answer within the problem's limits: what the parser should accept. */
  predicate ValidAnswer(input: CaseInput, out: CaseOutput)
  {
    && WellFormed(input, out)
    && 1 <= |out.permutations| <= input.p
    && (forall j | 0 <= j < |out.permutations| :: IndexBijection(out.permutations[j]))
    && (forall i | 0 <= i < |out.operations| :: |out.operations[i]| <= input.s)
  }

  /** At most s operations, each naming one of np permutations. */
  predicate OperationsWithin(ops: seq<int>, s: int, np: int)
  {
    |ops| <= s && forall x | 0 <= x < |ops| :: 0 <= ops[x] < np
  }

  lemma {:induction false} ParseIntsFormat(vs: seq<int>)
    requires forall i | 0 <= i < |vs| :: -FenceDesign.Limit <= vs[i] <= FenceDesign.Limit
    ensures ParseInts(FormatInts(vs)) == Ok(vs)
  {
    if vs != [] {
      var front := vs[..|vs| - 1];
      assert FormatInts(vs)[..|vs| - 1] == FormatInts(front);
      ParseIntsFormat(front);
      FenceDesign.IntInRangeDecimal(vs[|vs| - 1]);
      assert front + [vs[|vs| - 1]] == vs;
    }
  }

  lemma {:induction false} OperationListFormat(ops: seq<int>, np: int)
    requires np <= FenceDesign.Limit && forall o | 0 <= o < |ops| :: 0 <= ops[o] < np
    ensures ParseOperationList(FormatInts(Increment(ops)), np) == Ok(ops)
  {
    if ops != [] {
      var front := ops[..|ops| - 1];
      assert FormatInts(Increment(ops))[..|ops| - 1] == FormatInts(Increment(front));
      OperationListFormat(front, np);
      FenceDesign.IntInRangeDecimal(ops[|ops| - 1] + 1);
      assert front + [ops[|ops| - 1]] == ops;
    }
  }

  lemma PermutationFormat(p: seq<int>, n: int)
    requires n < FenceDesign.Limit && IndexMap(p, n) && IndexBijection(p)
    ensures ParsePermutation(FormatInts(Increment(p)), n) == Ok(p)
  {
    ParseIntsFormat(Increment(p));
    assert Decrement(Increment(p)) == p;
    BijectionIsZeroBased(p);
  }

  lemma OperationLineFormat(ops: seq<int>, s: int, np: int)
    requires |ops| <= s && s <= FenceDesign.Limit && np <= FenceDesign.Limit
    requires forall o | 0 <= o < |ops| :: 0 <= ops[o] < np
    ensures ParseOperationLine(OperationLine(ops), s, np) == Ok(ops)
  {
    FenceDesign.IntInRangeDecimal(|ops|);
    assert OperationLine(ops)[1..] == FormatInts(Increment(ops));
    OperationListFormat(ops, np);
  }

  /** Printed permutation lines, from line l on, are read back as the permutations. */
  lemma {:induction false} PermutationsRead(lines: seq<seq<string>>, n: int, l: nat, last: nat,
                                            perms: seq<seq<int>>, all: seq<seq<int>>, d: int)
    requires l <= last + 1 <= |lines| && |perms| <= |all| && all[..|perms|] == perms
    requires last + 1 - l == |all| - |perms| && n < FenceDesign.Limit && l == |perms| + d
    requires forall j | 0 <= j < |all| :: PermutationPrinted(lines, j + d, all[j], n)
    ensures ParsePermutations(lines, n, l, last, perms) == Ok(all)
    decreases last + 1 - l
  {
    if l == last + 1 {
      assert all[..|perms|] == all;
    } else {
      var p := all[|perms|];
      assert PermutationPrinted(lines, l, p, n);
      PermutationPrintedReads(lines, l, p, n);
      PermutationsStep(lines, n, l, last, perms, p);
      assert perms + [p] == all[..|perms| + 1];
      PermutationsRead(lines, n, l + 1, last, perms + [p], all, d);
    }
  }

  /** Line m holds permutation p, printed one-based. */
  predicate PermutationPrinted(lines: seq<seq<string>>, m: int, p: seq<int>, n: int)
  {
    0 <= m < |lines| && lines[m] == FormatInts(Increment(p)) && IndexMap(p, n) && IndexBijection(p)
  }

  lemma PermutationPrintedReads(lines: seq<seq<string>>, m: int, p: seq<int>, n: int)
    requires PermutationPrinted(lines, m, p, n) && n < FenceDesign.Limit
    ensures ParsePermutation(lines[m], n) == Ok(p)
  {
    PermutationFormat(p, n);
  }

  /** Line m holds the operation list ops, printed with its count. */
  predicate OperationsPrinted(lines: seq<seq<string>>, m: int, ops: seq<int>, s: int, np: int)
  {
    0 <= m < |lines| && lines[m] == OperationLine(ops) && OperationsWithin(ops, s, np)
  }

  lemma OperationsPrintedReads(lines: seq<seq<string>>, m: int, ops: seq<int>, s: int, np: int)
    requires OperationsPrinted(lines, m, ops, s, np) && s <= FenceDesign.Limit && np <= FenceDesign.Limit
    ensures |lines[m]| >= 1 && ParseOperationLine(lines[m], s, np) == Ok(ops)
  {
    OperationLineFormat(ops, s, np);
  }

  lemma PermutationsStep(lines: seq<seq<string>>, n: int, l: nat, last: nat, perms: seq<seq<int>>, p: seq<int>)
    requires l <= last < |lines| && ParsePermutation(lines[l], n) == Ok(p)
    ensures ParsePermutations(lines, n, l, last, perms) == ParsePermutations(lines, n, l + 1, last, perms + [p])
  {
  }

  lemma OperationsStep(lines: seq<seq<string>>, s: int, np: int, l: nat, ops: seq<seq<int>>, o: seq<int>)
    requires 1 <= l < |lines| && Tokenized(lines) && ParseOperationLine(lines[l], s, np) == Ok(o)
    ensures ParseOperations(lines, s, np, l, ops) == ParseOperations(lines, s, np, l + 1, ops + [o])
  {
  }

  /** Printed operation lines, from line l to the end, are read back as the lists. */
  lemma {:induction false} OperationsRead(lines: seq<seq<string>>, s: int, np: int, l: nat,
                                          ops: seq<seq<int>>, all: seq<seq<int>>, d: int)
    requires 1 <= l <= |lines| && Tokenized(lines)
    requires |ops| <= |all| && all[..|ops|] == ops && |lines| - l == |all| - |ops|
    requires s <= FenceDesign.Limit && np <= FenceDesign.Limit
    requires l == |ops| + d
    requires forall i | 0 <= i < |all| :: OperationsPrinted(lines, i + d, all[i], s, np)
    ensures ParseOperations(lines, s, np, l, ops) == Ok(all)
    decreases |lines| - l
  {
    if l == |lines| {
      assert all[..|ops|] == all;
    } else {
      var o := all[|ops|];
      assert OperationsPrinted(lines, l, o, s, np);
      OperationsPrintedReads(lines, l, o, s, np);
      OperationsStep(lines, s, np, l, ops, o);
      assert ops + [o] == all[..|ops| + 1];
      OperationsRead(lines, s, np, l + 1, ops + [o], all, d);
    }
  }

  lemma FormatTokenized(out: CaseOutput)
    ensures |FormatAnswer(out)| == |out.permutations| + |out.operations| + 2
    ensures (forall j | 0 <= j < |out.permutations| :: |out.permutations[j]| >= 1) ==> Tokenized(FormatAnswer(out))
  {
    var lines := FormatAnswer(out);
    var np := |out.permutations|;
    forall m | 2 <= m < np + 2
      ensures lines[m] == FormatInts(Increment(out.permutations[m - 2]))
    {
      FormatPermutationLine(out, m - 2);
    }
    forall m | np + 2 <= m < |lines|
      ensures |lines[m]| >= 1
    {
      FormatOperationLine(out, m - np - 2);
    }
  }

  /** The first two lines of a printed answer: nothing after "Case #T:", then the count. */
  lemma FormatHead(out: CaseOutput)
    ensures |FormatAnswer(out)| == |out.permutations| + |out.operations| + 2
    ensures FormatAnswer(out)[0] == [] && FormatAnswer(out)[1] == [JudgeUtils.Decimal(|out.permutations|)]
  {
  }

  lemma FormatPermutationLine(out: CaseOutput, j: nat)
    requires j < |out.permutations|
    ensures j + 2 < |FormatAnswer(out)|
    ensures FormatAnswer(out)[j + 2] == FormatInts(Increment(out.permutations[j]))
  {
  }

  lemma FormatOperationLine(out: CaseOutput, i: nat)
    requires i < |out.operations|
    ensures i + (|out.permutations| + 2) < |FormatAnswer(out)|
    ensures FormatAnswer(out)[i + (|out.permutations| + 2)] == OperationLine(out.operations[i])
  {
  }

  /**
   * An answer within the limits, printed the way the problem asks, is read
   * back exactly (when the arrays are not empty, so no permutation line is).
   */
  lemma ParseFormatted(input: CaseInput, out: CaseOutput)
    requires ValidInput(input) && ValidAnswer(input, out) && input.n >= 1
    requires input.n < FenceDesign.Limit && input.s <= FenceDesign.Limit && input.p <= FenceDesign.Limit
    ensures Tokenized(FormatAnswer(out))
    ensures ParseCase(input, FormatAnswer(out)) == Ok(out)
  {
    var lines := FormatAnswer(out);
    var np := |out.permutations|;
    assert forall j | 0 <= j < np :: |out.permutations[j]| >= 1;
    FormatTokenized(out);
    FenceDesign.IntInRangeDecimal(np);
    FormatHead(out);
    assert FenceDesign.IntInRange(lines[1][0]) == Ok(np);
    assert PermutationCount(lines[1][0], input.p) == Ok(np);
    FormattedPermutations(input, out);
    forall i | 0 <= i < |out.operations|
      ensures OperationsWithin(out.operations[i], input.s, np)
    {
    }
    FormattedOperations(input, out);
  }

  lemma FormattedPermutations(input: CaseInput, out: CaseOutput)
    requires ValidAnswer(input, out) && input.n < FenceDesign.Limit
    ensures |FormatAnswer(out)| == |out.permutations| + |out.operations| + 2
    ensures ParsePermutations(FormatAnswer(out), input.n, 2, |out.permutations| + 1, []) == Ok(out.permutations)
  {
    var lines := FormatAnswer(out);
    var np := |out.permutations|;
    FormatHead(out);
    var perms: seq<seq<int>> := [];
    forall j | 0 <= j < np
      ensures PermutationPrinted(lines, j + 2, out.permutations[j], input.n)
    {
      FormatPermutationLine(out, j);
    }
    PermutationsRead(lines, input.n, 2, np + 1, perms, out.permutations, 2);
  }

  lemma FormattedOperations(input: CaseInput, out: CaseOutput)
    requires Tokenized(FormatAnswer(out))
    requires input.s <= FenceDesign.Limit && |out.permutations| <= FenceDesign.Limit
    requires forall i | 0 <= i < |out.operations| :: OperationsWithin(out.operations[i], input.s, |out.permutations|)
    ensures |FormatAnswer(out)| == |out.permutations| + |out.operations| + 2
    ensures ParseOperations(FormatAnswer(out), input.s, |out.permutations|, |out.permutations| + 2, [])
      == Ok(out.operations)
  {
    var lines := FormatAnswer(out);
    var np := |out.permutations|;
    FormatHead(out);
    var ops: seq<seq<int>> := [];
    forall i | 0 <= i < |out.operations|
      ensures OperationsPrinted(lines, i + (np + 2), out.operations[i], input.s, np)
    {
      FormatOperationLine(out, i);
    }
    OperationsRead(lines, input.s, np, np + 2, ops, out.operations, np + 2);
  }
}
