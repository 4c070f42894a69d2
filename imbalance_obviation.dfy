/**
 * The Imbalance Obviation judge (Code Jam to I/O for Women 2020).  Balls
 * 1..N are put on a scale one after the other, each on the left ('L') or
 * right ('R') pan, then taken off in the order the case gives.  The scale
 * breaks when the pans ever differ by more than one ball.
 */
module ImbalanceObviation {
  import opened Wrappers
  import opened JudgeUtils
  import opened Sequences

  const BadFormat := "Output is not well-formatted"
  const BadOutputPrefix := "Our output is incorrect: "
  const NonLR := "A character neither L nor R is found."
  const InvalidLength := "The length of the output is not equal to N."
  const PuttingBreaks := "The scale was broken when putting the balls."
  const RemovingBreaks := "The scale was broken when removing the balls."

  predicate OnlyLR(s: string)
  {
    forall i | 0 <= i < |s| :: s[i] == 'L' || s[i] == 'R'
  }

  /** How a ball on pan c tips the scale: +1 on the left, -1 otherwise. */
  function Sign(c: char): int
  {
    if c == 'L' then 1 else -1
  }

  /** Left balls minus right balls, for the balls placed in order s. */
  function Diff(s: string): int
  {
    if s == [] then 0 else Diff(s[..|s| - 1]) + Sign(s[|s| - 1])
  }

  /** What removing the balls numbered in `removed` (1-based) takes off the difference. */
  function RemovedSum(s: string, removed: seq<int>): int
  {
    if removed == [] then 0 else Weight(s, removed[0]) + RemovedSum(s, removed[1..])
  }

  /** The sign of ball b (1-based); a number that names no ball weighs nothing. */
  function Weight(s: string, b: int): int
  {
    if 1 <= b <= |s| then Sign(s[b - 1]) else 0
  }

  function Abs(x: int): nat
  {
    if x < 0 then -x else x
  }

  /** The scale holds while the balls go on. */
  ghost predicate PutOk(s: string)
  {
    forall k | 1 <= k <= |s| :: Abs(Diff(s[..k])) <= 1
  }

  /** The scale holds while the balls come off in the order a. */
  ghost predicate RemoveOk(s: string, a: seq<int>)
  {
    forall m | 1 <= m <= |a| :: Abs(Diff(s) - RemovedSum(s, a[..m])) <= 1
  }

  lemma {:induction false} RemovedConcat(s: string, x: seq<int>, y: seq<int>)
    ensures RemovedSum(s, x + y) == RemovedSum(s, x) + RemovedSum(s, y)
  {
    if x == [] {
      assert x + y == y;
    } else {
      assert (x + y)[0] == x[0];
      assert (x + y)[1..] == x[1..] + y;
      RemovedConcat(s, x[1..], y);
    }
  }

  /** The ball at position k of the order contributes its sign once. */
  lemma RemovedAt(s: string, y: seq<int>, k: nat)
    requires k < |y|
    ensures RemovedSum(s, y) == RemovedSum(s, y[..k] + y[k + 1..]) + Weight(s, y[k])
  {
    var before, after := y[..k], y[k + 1..];
    assert y == before + ([y[k]] + after);
    RemovedConcat(s, before, [y[k]] + after);
    assert ([y[k]] + after)[1..] == after;
    RemovedConcat(s, before, after);
  }

  /** A rearrangement of valid ball numbers holds valid ball numbers. */
  lemma PermutedRange(s: string, x: seq<int>, y: seq<int>)
    requires forall t | 0 <= t < |x| :: 1 <= x[t] <= |s|
    requires multiset(x) == multiset(y)
    ensures forall t | 0 <= t < |y| :: 1 <= y[t] <= |s|
  {
    forall t | 0 <= t < |y| ensures 1 <= y[t] <= |s| {
      assert y[t] in multiset(x);
    }
  }

  /** Taking the balls off in any order sums the same. */
  lemma {:induction false} RemovedPermutation(s: string, x: seq<int>, y: seq<int>)
    requires multiset(x) == multiset(y)
    ensures RemovedSum(s, x) == RemovedSum(s, y)
  {
    if x != [] {
      assert x[0] in multiset(y);
      var k :| 0 <= k < |y| && y[k] == x[0];
      var rest := y[..k] + y[k + 1..];
      MultisetRemove(y, k);
      assert x == [x[0]] + x[1..];
      assert multiset(x[1..]) == multiset(rest);
      RemovedPermutation(s, x[1..], rest);
      RemovedAt(s, y, k);
    }
  }

  /** The balls 1..n in order. */
  function Iota(n: nat): (r: seq<int>)
    ensures |r| == n && forall t | 0 <= t < n :: r[t] == t + 1
  {
    seq(n, t => t + 1)
  }

  lemma {:induction false} RemovedInOrder(s: string, n: nat)
    requires n <= |s|
    ensures RemovedSum(s, Iota(n)) == Diff(s[..n])
  {
    if n > 0 {
      RemovedInOrder(s, n - 1);
      assert Iota(n) == Iota(n - 1) + [n];
      RemovedConcat(s, Iota(n - 1), [n]);
      assert [n][1..] == [];
      assert s[..n][..n - 1] == s[..n - 1];
    }
  }

  /**
   * When the case removes every ball exactly once, the scale ends empty:
   * the last removal leaves a difference of zero.
   */
  lemma ScaleEndsEmpty(s: string, a: seq<int>)
    requires multiset(a) == multiset(Iota(|s|))
    ensures forall t | 0 <= t < |a| :: 1 <= a[t] <= |s|
    ensures Diff(s) - RemovedSum(s, a) == 0
  {
    PermutedRange(s, Iota(|s|), a);
    RemovedPermutation(s, Iota(|s|), a);
    RemovedInOrder(s, |s|);
    assert s[..|s|] == s;
  }

  /**
   * The first part of VerifyOutput: the balls go on in order, counted per
   * pan; false as soon as the pans differ by more than one.
   */
  method PutBalls(s: string) returns (ok: bool, l: int, r: int)
    ensures ok <==> PutOk(s)
    ensures ok ==> l - r == Diff(s)
  {
    l, r := 0, 0;
    for i := 0 to |s|
      invariant l - r == Diff(s[..i])
      invariant forall k | 1 <= k <= i :: Abs(Diff(s[..k])) <= 1
    {
      assert s[..i + 1][..i] == s[..i];
      if s[i] == 'L' {
        l := l + 1;
      } else {
        r := r + 1;
      }
      if Abs(l - r) > 1 {
        return false, l, r;
      }
    }
    assert s[..|s|] == s;
    return true, l, r;
  }

  /**
   * The second part of VerifyOutput: the balls come off in the order a,
   * starting from the counts PutBalls left.
   */
  method RemoveBalls(s: string, a: seq<int>, l0: int, r0: int) returns (ok: bool)
    requires forall t | 0 <= t < |a| :: 1 <= a[t] <= |s|
    requires l0 - r0 == Diff(s)
    ensures ok <==> RemoveOk(s, a)
  {
    var l, r := l0, r0;
    for m := 0 to |a|
      invariant l - r == Diff(s) - RemovedSum(s, a[..m])
      invariant forall k | 1 <= k <= m :: Abs(Diff(s) - RemovedSum(s, a[..k])) <= 1
    {
      assert a[..m + 1] == a[..m] + [a[m]];
      RemovedConcat(s, a[..m], [a[m]]);
      assert [a[m]][1..] == [];
      if s[a[m] - 1] == 'L' {
        l := l - 1;
      } else {
        r := r - 1;
      }
      if Abs(l - r) > 1 {
        return false;
      }
    }
    return true;
  }

  /** Checks one answer against a case of n balls removed in the order a. */
  method VerifyOutput(lines: seq<seq<string>>, n: int, a: seq<int>) returns (e: Option<string>)
    requires forall t | 0 <= t < |a| :: 1 <= a[t] <= n
    ensures UpperToken(lines).None? ==> e == Some(BadFormat)
    ensures UpperToken(lines).Some? && !OnlyLR(UpperToken(lines).value) ==> e == Some(NonLR)
    ensures (UpperToken(lines).Some? && OnlyLR(UpperToken(lines).value) && |UpperToken(lines).value| != n)
      ==> e == Some(InvalidLength)
    ensures (UpperToken(lines).Some? && OnlyLR(UpperToken(lines).value) && |UpperToken(lines).value| == n)
      ==> var s := UpperToken(lines).value;
        (!PutOk(s) ==> e == Some(PuttingBreaks))
        && (PutOk(s) && !RemoveOk(s, a) ==> e == Some(RemovingBreaks))
        && (e.None? <==> PutOk(s) && RemoveOk(s, a))
  {
    if |lines| != 1 || |lines[0]| != 1 {
      return Some(BadFormat);
    }
    var s := Upper(lines[0][0]);
    if exists i | 0 <= i < |s| :: s[i] != 'L' && s[i] != 'R' {
      return Some(NonLR);
    }
    if |s| != n {
      return Some(InvalidLength);
    }
    var ok, l, r := PutBalls(s);
    if !ok {
      return Some(PuttingBreaks);
    }
    ok := RemoveBalls(s, a, l, r);
    if !ok {
      return Some(RemovingBreaks);
    }
    return None;
  }

  /** Our answer is checked first; an error in it is ours. */
  method VerifyCase(output: seq<seq<string>>, attempt: seq<seq<string>>, n: int, a: seq<int>) returns (e: Option<string>)
    requires forall t | 0 <= t < |a| :: 1 <= a[t] <= n
    ensures UpperToken(output).None? ==> e == Some(BadOutputPrefix + BadFormat)
    ensures (UpperToken(output).Some? && UpperToken(attempt).Some? && |UpperToken(output).value| == n
      && |UpperToken(attempt).value| == n) ==>
      (e.None? <==>
        var ours := UpperToken(output).value;
        var theirs := UpperToken(attempt).value;
        OnlyLR(ours) && PutOk(ours) && RemoveOk(ours, a) && OnlyLR(theirs) && PutOk(theirs) && RemoveOk(theirs, a))
  {
    var ours := VerifyOutput(output, n, a);
    if ours.Some? {
      return Some(BadOutputPrefix + ours.value);
    }
    e := VerifyOutput(attempt, n, a);
  }
}
