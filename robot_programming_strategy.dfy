/**
 * The Robot Programming Strategy judge (Code Jam 2019, round 1C).  A program
 * is a string of moves R, P and S that a robot repeats forever; two robots
 * play their moves round by round and the first round with different moves
 * decides the match.  The judge decides a match with a Z array over the
 * first program followed by the second one repeated.
 */
module RobotProgrammingStrategy {
  import opened Wrappers
  import opened JudgeUtils

  const BadFormatError := "Output is not a program or IMPOSSIBLE"
  const BadImpossibleClaimError := "Solution claims a valid program does not exist while our solution finds one"
  const BadPossibleClaimError := "Our output is incorrect: Solution shows that a valid program exists while our solution does not find one"
  const BadOutputTooLongError := "Output is too long"
  const BadProgramLoseError := "Output is not a winning program"
  const ImpossibleKeyword := "IMPOSSIBLE"
  const MaxOutputLength := 500

  function BadOutputError(e: string): string
  {
    "Our output is incorrect: " + e
  }

  // ---------------------------------------------------------------------
  // One round
  // ---------------------------------------------------------------------

  /** Move a beats move b, ignoring case: rock beats scissors, scissors paper, paper rock. */
  predicate Win(a: char, b: char)
  {
    var x, y := UpperChar(a), UpperChar(b);
    (x == 'R' && y == 'S') || (x == 'S' && y == 'P') || (x == 'P' && y == 'R')
  }

  /** No move beats itself, and of two moves at most one beats the other. */
  lemma WinStrict(a: char, b: char)
    ensures !Win(a, a)
    ensures Win(a, b) ==> !Win(b, a)
  {
  }

  /** Of two different moves among R, P and S, exactly one beats the other. */
  lemma WinDecides(a: char, b: char)
    requires a in "RPS" && b in "RPS" && a != b
    ensures Win(a, b) != Win(b, a)
  {
  }

  // ---------------------------------------------------------------------
  // The Z array
  // ---------------------------------------------------------------------

  /** The k characters of s from position i repeat the first k characters of s. */
  ghost predicate PrefixAt(s: string, i: int, k: int)
  {
    0 <= i && 0 <= k && i + k <= |s| && forall t | 0 <= t < k :: s[t] == s[i + t]
  }

  /** k is the Z value of s at i: a repeat that cannot be extended. */
  ghost predicate ZValue(s: string, i: int, k: int)
  {
    PrefixAt(s, i, k) && (i + k == |s| || s[k] != s[i + k])
  }

  /** The Z value is the largest k with s[..k] == s[i..i+k]. */
  lemma ZValueLongest(s: string, i: int, k: int, m: int)
    requires ZValue(s, i, k) && 0 <= i
    ensures PrefixAt(s, i, m) <==> 0 <= m <= k
  {
    if 0 <= m <= k {
      assert forall t | 0 <= t < m :: s[t] == s[i + t];
    }
  }

  /** A position inside the current window copies the Z value of its mirror when that ends inside the window. */
  lemma ZCopy(s: string, l: int, r: int, i: int, zk: int)
    requires 1 <= l < i <= r < |s| && PrefixAt(s, l, r + 1 - l)
    requires ZValue(s, i - l, zk) && zk < r - i + 1
    ensures ZValue(s, i, zk)
  {
    var k := i - l;
    forall t | 0 <= t < zk
      ensures s[t] == s[i + t]
    {
      assert s[k + t] == s[l + (k + t)];
    }
    assert s[k + zk] == s[l + (k + zk)];
  }

  /** Otherwise the repeat at i reaches at least the end of the window. */
  lemma ZReuse(s: string, l: int, r: int, i: int, zk: int)
    requires 1 <= l < i <= r < |s| && PrefixAt(s, l, r + 1 - l)
    requires ZValue(s, i - l, zk) && zk >= r - i + 1
    ensures PrefixAt(s, i, r - i)
  {
    var k := i - l;
    forall t | 0 <= t < r - i
      ensures s[t] == s[i + t]
    {
      assert s[k + t] == s[l + (k + t)];
    }
  }

  /** The inner loop of GetZArray: extend a repeat at l one character at a time. */
  method Extend(s: string, l: int, r0: int) returns (r: int)
    requires 0 <= l <= r0 <= |s| && PrefixAt(s, l, r0 - l)
    ensures r0 <= r <= |s| && ZValue(s, l, r - l)
  {
    r := r0;
    while r < |s| && s[r - l] == s[r]
      invariant r0 <= r <= |s| && PrefixAt(s, l, r - l)
    {
      r := r + 1;
    }
  }

  /**
   * The source's GetZArray: entry i is the Z value of s at i, computed
   * with the window [l, r] of the rightmost repeat found so far; entry 0
   * is 0.
   */
  method GetZArray(s: string) returns (z: seq<int>)
    ensures |z| == |s|
    ensures |s| > 0 ==> z[0] == 0
    ensures forall i | 1 <= i < |s| :: ZValue(s, i, z[i])
  {
    var n := |s|;
    z := seq(n, _ => 0);
    if n == 0 {
      return;
    }
    var l, r := 0, 0;
    var i := 1;
    while i < n
      invariant 1 <= i <= n && |z| == n && z[0] == 0
      invariant 0 <= l < i && l <= r + 1 && r < n && (l == 0 ==> r == 0)
      invariant PrefixAt(s, l, r + 1 - l)
      invariant forall j | 1 <= j < i :: ZValue(s, j, z[j])
    {
      var zi;
      if i > r {
        l := i;
        r := Extend(s, i, i);
        zi := r - l;
        r := r - 1;
      } else {
        var k := i - l;
        if z[k] < r - i + 1 {
          ZCopy(s, l, r, i, z[k]);
          zi := z[k];
        } else {
          ZReuse(s, l, r, i, z[k]);
          l := i;
          r := Extend(s, i, r);
          zi := r - l;
          r := r - 1;
        }
      }
      z := z[i := zi];
      i := i + 1;
    }
  }

  // ---------------------------------------------------------------------
  // A match between two programs
  // ---------------------------------------------------------------------

  /** In round t the two robots play the same move. */
  predicate SameMove(a: string, b: string, t: int)
    requires |a| >= 1 && |b| >= 1 && t >= 0
  {
    a[t % |a|] == b[t % |b|]
  }

  /** Round t is the first round in which the robots play different moves. */
  ghost predicate FirstDifference(a: string, b: string, t: int)
    requires |a| >= 1 && |b| >= 1
  {
    t >= 0 && !SameMove(a, b, t) && forall u | 0 <= u < t :: SameMove(a, b, u)
  }

  /** Program a beats program b: they differ in some round, and a wins the first such round. */
  ghost predicate Beats(a: string, b: string)
    requires |b| >= 1
  {
    |a| >= 1 && exists t :: FirstDifference(a, b, t) && Win(a[t % |a|], b[t % |b|])
  }

  lemma FirstDifferenceUnique(a: string, b: string, t1: int, t2: int)
    requires |a| >= 1 && |b| >= 1
    requires FirstDifference(a, b, t1) && FirstDifference(a, b, t2)
    ensures t1 == t2
  {
  }

  /** The first difference of a match is the first difference of the reversed match. */
  lemma FirstDifferenceSymmetric(a: string, b: string, t: int)
    requires |a| >= 1 && |b| >= 1
    ensures FirstDifference(a, b, t) <==> FirstDifference(b, a, t)
  {
    if t >= 0 {
      assert forall u | 0 <= u < t :: SameMove(a, b, u) == SameMove(b, a, u);
    }
  }

  /** Two programs cannot beat each other. */
  lemma BeatsAsymmetric(a: string, b: string)
    requires |a| >= 1 && |b| >= 1 && Beats(a, b)
    ensures !Beats(b, a)
  {
    var t :| FirstDifference(a, b, t) && Win(a[t % |a|], b[t % |b|]);
    if Beats(b, a) {
      var t' :| FirstDifference(b, a, t') && Win(b[t' % |b|], a[t' % |a|]);
      FirstDifferenceSymmetric(a, b, t');
      FirstDifferenceUnique(a, b, t, t');
      WinStrict(a[t % |a|], b[t % |b|]);
      assert false;
    }
  }

  /** No program beats itself. */
  lemma NoSelfWin(a: string)
    requires |a| >= 1
    ensures !Beats(a, a)
  {
  }

  lemma MulBound(d: int, m: int)
    requires m > 0 && d >= 1
    ensures d * m >= m
  {
  }

  /** Quotient and remainder are unique. */
  lemma ModUnique(x: int, m: int, q: int, r: int)
    requires m > 0 && 0 <= r < m && x == q * m + r
    ensures x % m == r
  {
    var q', r' := x / m, x % m;
    assert (q - q') * m == r' - r;
    if q > q' {
      MulBound(q - q', m);
    } else if q < q' {
      MulBound(q' - q, m);
    }
  }

  lemma ModMultipleAdd(q: nat, w: nat, m: int)
    requires m > 0
    ensures (q * m + w) % m == w % m
  {
    assert w == (w / m) * m + w % m;
    assert q * m + w == (q + w / m) * m + w % m;
    ModUnique(q * m + w, m, q + w / m, w % m);
  }

  lemma ModAdd(x: nat, y: nat, m: int)
    requires m > 0
    ensures (x + y) % m == (x % m + y) % m
  {
    assert x == (x / m) * m + x % m;
    ModMultipleAdd(x / m, x % m + y, m);
  }

  /** c is b repeated a whole number of times. */
  ghost predicate Repeats(c: string, b: string)
    requires |b| >= 1
  {
    |c| % |b| == 0 && forall x | 0 <= x < |c| :: c[x] == b[x % |b|]
  }

  lemma RepeatsConcat(c: string, d: string, b: string)
    requires |b| >= 1 && Repeats(c, b) && Repeats(d, b)
    ensures Repeats(c + d, b)
  {
    assert |c| == (|c| / |b|) * |b|;
    forall x | |c| <= x < |c| + |d|
      ensures (c + d)[x] == b[x % |b|]
    {
      ModMultipleAdd(|c| / |b|, x - |c|, |b|);
    }
    ModMultipleAdd(|c| / |b|, |d|, |b|);
  }

  /** Matching characters of a + cc in pass j are equal moves in rounds j|a| onwards. */
  lemma MatchedRounds(a: string, b: string, cc: string, j: nat, nowB: int, k: int, m: int)
    requires |a| >= 1 && |b| >= 1 && Repeats(cc, b) && |cc| >= |a| + |b|
    requires 0 <= nowB < |b| && nowB == (j * |a|) % |b|
    requires PrefixAt(a + cc, |a| + nowB, k) && 0 <= m <= k && m <= |a|
    ensures forall u | j * |a| <= u < j * |a| + m :: SameMove(a, b, u)
  {
    var s := a + cc;
    forall u | j * |a| <= u < j * |a| + m
      ensures SameMove(a, b, u)
    {
      var v := u - j * |a|;
      RoundMoves(a, b, cc, j, nowB, v);
      assert s[v] == s[|a| + nowB + v];
    }
  }

  /** The moves of round j|a| + v are a[v] and the character of cc at nowB + v. */
  lemma RoundMoves(a: string, b: string, cc: string, j: nat, nowB: int, v: int)
    requires |a| >= 1 && |b| >= 1 && Repeats(cc, b)
    requires 0 <= nowB < |b| && nowB == (j * |a|) % |b|
    requires 0 <= v < |a| && nowB + v < |cc|
    ensures (j * |a| + v) % |a| == v
    ensures (j * |a| + v) % |b| == (nowB + v) % |b|
    ensures cc[nowB + v] == b[(j * |a| + v) % |b|]
  {
    ModMultipleAdd(j, v, |a|);
    ModUnique(v, |a|, 0, v);
    ModAdd(j * |a|, v, |b|);
  }

  /** Equal moves for one common period of both programs means equal moves forever. */
  lemma {:induction false} Periodic(a: string, b: string, p: int, u: nat)
    requires |a| >= 1 && |b| >= 1 && p >= 1 && p % |a| == 0 && p % |b| == 0
    requires forall v | 0 <= v < p :: SameMove(a, b, v)
    ensures SameMove(a, b, u)
    decreases u
  {
    if u >= p {
      Periodic(a, b, p, u - p);
      assert p == (p / |a|) * |a| && p == (p / |b|) * |b|;
      ModMultipleAdd(p / |a|, u - p, |a|);
      ModMultipleAdd(p / |b|, u - p, |b|);
    }
  }

  /** A pass that matches all of a: its rounds are equal moves, and b's offset moves on by |a|. */
  lemma FullPass(a: string, b: string, cc: string, j: nat, nowB: int, lcp: int)
    requires |a| >= 1 && |b| >= 1 && Repeats(cc, b) && |cc| >= |a| + |b|
    requires 0 <= nowB < |b| && nowB == (j * |a|) % |b|
    requires PrefixAt(a + cc, |a| + nowB, lcp) && lcp >= |a|
    requires forall u | 0 <= u < j * |a| :: SameMove(a, b, u)
    ensures forall u | 0 <= u < (j + 1) * |a| :: SameMove(a, b, u)
    ensures (nowB + |a|) % |b| == ((j + 1) * |a|) % |b|
  {
    MatchedRounds(a, b, cc, j, nowB, lcp, |a|);
    ModAdd(j * |a|, |a|, |b|);
    assert (j + 1) * |a| == j * |a| + |a|;
  }

  /** A pass that stops inside a: the stopping round is the first difference, which decides the match. */
  lemma MismatchPass(a: string, b: string, cc: string, j: nat, nowB: int, lcp: int)
    requires |a| >= 1 && |b| >= 1 && Repeats(cc, b) && |cc| >= |a| + |b|
    requires 0 <= nowB < |b| && nowB == (j * |a|) % |b|
    requires ZValue(a + cc, |a| + nowB, lcp) && lcp < |a|
    requires forall u | 0 <= u < j * |a| :: SameMove(a, b, u)
    ensures Beats(a, b) <==> Win(a[lcp], b[(lcp + nowB) % |b|])
  {
    var s := a + cc;
    var t := j * |a| + lcp;
    MatchedRounds(a, b, cc, j, nowB, lcp, lcp);
    RoundMoves(a, b, cc, j, nowB, lcp);
    assert s[lcp] != s[|a| + nowB + lcp];
    assert FirstDifference(a, b, t);
    forall t' | FirstDifference(a, b, t')
      ensures t' == t
    {
      FirstDifferenceUnique(a, b, t, t');
    }
  }

  /** After |b| passes b's offset is back at 0. */
  lemma FullCycle(a: string, b: string)
    requires |b| >= 1
    ensures (|b| * |a|) % |b| == 0
  {
    ModMultipleAdd(|a|, 0, |b|);
    assert |b| * |a| == |a| * |b|;
  }

  /** Passes that return b's offset to 0 without a difference make a tie. */
  lemma Tie(a: string, b: string, j: nat)
    requires |a| >= 1 && |b| >= 1 && j >= 1 && (j * |a|) % |b| == 0
    requires forall u | 0 <= u < j * |a| :: SameMove(a, b, u)
    ensures !Beats(a, b)
  {
    ModMultipleAdd(j, 0, |a|);
    forall u: nat
      ensures SameMove(a, b, u)
    {
      Periodic(a, b, j * |a|, u);
    }
  }

  lemma RepeatsSelf(b: string)
    requires |b| >= 1
    ensures Repeats(b, b)
  {
    ModUnique(|b|, |b|, 1, 0);
    forall x | 0 <= x < |b|
      ensures b[x] == b[x % |b|]
    {
      ModUnique(x, |b|, 0, x);
    }
  }

  /** The first loop of IsProgramWin: b repeated until it is at least n long. */
  method RepeatTo(b: string, n: int) returns (c: string)
    requires |b| >= 1
    ensures Repeats(c, b) && |c| >= |b| && |c| >= n
  {
    c := b;
    RepeatsSelf(b);
    while |c| < n
      invariant Repeats(c, b) && |c| >= |b|
      decreases n - |c|
    {
      RepeatsConcat(c, b, b);
      c := c + b;
    }
  }

  /** The source's IsProgramWin: whether program a beats program b. */
  method IsProgramWin(a: string, b: string) returns (w: bool)
    requires |b| >= 1
    ensures w <==> Beats(a, b)
  {
    var c := RepeatTo(b, |a|);
    RepeatsConcat(c, c, b);
    var s := a + c + c;
    ghost var cc := c + c;
    assert s == a + cc;
    var z := GetZArray(s);
    var nowB := 0;
    ghost var j: nat := 0;
    FullCycle(a, b);
    while true
      invariant j <= |b| && 0 <= nowB < |b| && nowB == (j * |a|) % |b|
      invariant j == 0 || nowB != 0
      invariant |a| >= 1 ==> forall u | 0 <= u < j * |a| :: SameMove(a, b, u)
      decreases |b| - j
    {
      var lcp := z[|a| + nowB];
      if lcp < |a| {
        MismatchPass(a, b, cc, j, nowB, lcp);
        return Win(a[lcp], b[(lcp + nowB) % |b|]);
      }
      if |a| >= 1 {
        FullPass(a, b, cc, j, nowB, lcp);
      } else {
        assert (nowB + |a|) % |b| == ((j + 1) * |a|) % |b|;
      }
      nowB := (nowB + |a|) % |b|;
      j := j + 1;
      if nowB == 0 {
        break;
      }
    }
    if |a| >= 1 {
      Tie(a, b, j);
    }
    return false;
  }

  // ---------------------------------------------------------------------
  // Checking an output
  // ---------------------------------------------------------------------

  /** Every character is a move, ignoring case. */
  predicate MovesOnly(output: string)
  {
    forall k | 0 <= k < |output| :: UpperChar(output[k]) in "PRS"
  }

  /** Program p beats every opponent, both upper-cased. */
  ghost predicate BeatsAll(p: string, programs: seq<string>)
    requires forall i | 0 <= i < |programs| :: |programs[i]| >= 1
  {
    forall i | 0 <= i < |programs| :: Beats(p, Upper(programs[i]))
  }

  /** The verdict on a claim that a program exists, against the reference's claim if any. */
  function Claim(programExists: bool, expected: Option<bool>): (Option<string>, Option<bool>)
  {
    if expected == Some(true) && !programExists then (Some(BadImpossibleClaimError), None)
    else if expected == Some(false) && programExists then (Some(BadPossibleClaimError), None)
    else (None, Some(programExists))
  }

  /**
   * What VerifyOutput decides: an error, or whether the output claims a
   * program exists.
   */
  ghost function Verify(lines: seq<seq<string>>, programs: seq<string>, expected: Option<bool>): (Option<string>, Option<bool>)
    requires forall i | 0 <= i < |programs| :: |programs[i]| >= 1
  {
    match SingleToken(lines)
    case None => (Some(BadFormatError), None)
    case Some(output) =>
      if |output| > MaxOutputLength then (Some(BadOutputTooLongError), None)
      else if Upper(output) == Upper(ImpossibleKeyword) then Claim(false, expected)
      else if !MovesOnly(output) then (Some(BadFormatError), None)
      else if !BeatsAll(Upper(output), programs) then (Some(BadProgramLoseError), None)
      else Claim(true, expected)
  }

  /** The character loop of VerifyOutput. */
  method CheckMoves(output: string) returns (ok: bool)
    ensures ok == MovesOnly(output)
  {
    for k := 0 to |output|
      invariant forall q | 0 <= q < k :: UpperChar(output[q]) in "PRS"
    {
      if UpperChar(output[k]) !in "PRS" {
        return false;
      }
    }
    return true;
  }

  /** The program loop of VerifyOutput. */
  method CheckBeatsAll(p: string, programs: seq<string>) returns (ok: bool)
    requires forall i | 0 <= i < |programs| :: |programs[i]| >= 1
    ensures ok == BeatsAll(p, programs)
  {
    for i := 0 to |programs|
      invariant forall q | 0 <= q < i :: Beats(p, Upper(programs[q]))
    {
      var w := IsProgramWin(p, Upper(programs[i]));
      if !w {
        return false;
      }
    }
    return true;
  }

  /** The source's VerifyOutput. */
  method VerifyOutput(lines: seq<seq<string>>, programs: seq<string>, expected: Option<bool>)
      returns (error: Option<string>, claim: Option<bool>)
    requires forall i | 0 <= i < |programs| :: |programs[i]| >= 1
    ensures (error, claim) == Verify(lines, programs, expected)
  {
    if |lines| != 1 || |lines[0]| != 1 {
      return Some(BadFormatError), None;
    }
    var output := lines[0][0];
    if |output| > MaxOutputLength {
      return Some(BadOutputTooLongError), None;
    }
    var programExists := true;
    if Upper(output) == Upper(ImpossibleKeyword) {
      programExists := false;
    } else {
      var moves := CheckMoves(output);
      if !moves {
        return Some(BadFormatError), None;
      }
      var wins := CheckBeatsAll(Upper(output), programs);
      if !wins {
        return Some(BadProgramLoseError), None;
      }
    }
    error, claim := Claim(programExists, expected).0, Claim(programExists, expected).1;
  }

  /**
   * An output passes exactly when it is one token of at most 500
   * characters that says IMPOSSIBLE in any case, or spells a program of
   * moves that beats every opponent; and its claim agrees with the
   * reference's claim when one is given.
   */
  lemma VerifyAccepts(lines: seq<seq<string>>, programs: seq<string>, expected: Option<bool>)
    requires forall i | 0 <= i < |programs| :: |programs[i]| >= 1
    ensures Verify(lines, programs, expected).0.None? <==>
      |lines| == 1 && |lines[0]| == 1 && |lines[0][0]| <= MaxOutputLength &&
      (var output := lines[0][0];
       var possible := Upper(output) != Upper(ImpossibleKeyword);
       (possible ==> MovesOnly(output) && BeatsAll(Upper(output), programs)) &&
       (expected.Some? ==> expected.value == possible))
    ensures Verify(lines, programs, expected).0.None? ==>
      Verify(lines, programs, expected).1 == Some(Upper(lines[0][0]) != Upper(ImpossibleKeyword))
  {
  }

  /** What VerifyCase decides: the reference output must pass on its own, then the attempt against its claim. */
  ghost function Judge(outputLines: seq<seq<string>>, attemptLines: seq<seq<string>>, programs: seq<string>): Option<string>
    requires forall i | 0 <= i < |programs| :: |programs[i]| >= 1
  {
    var (outputError, claim) := Verify(outputLines, programs, None);
    if outputError.Some? then Some(BadOutputError(outputError.value))
    else Verify(attemptLines, programs, claim).0
  }

  /** The source's VerifyCase. */
  method VerifyCase(outputLines: seq<seq<string>>, attemptLines: seq<seq<string>>, programs: seq<string>)
      returns (r: Option<string>)
    requires forall i | 0 <= i < |programs| :: |programs[i]| >= 1
    ensures r == Judge(outputLines, attemptLines, programs)
  {
    var outputError, claim := VerifyOutput(outputLines, programs, None);
    if outputError.Some? {
      return Some(BadOutputError(outputError.value));
    }
    var attemptClaim;
    r, attemptClaim := VerifyOutput(attemptLines, programs, claim);
  }

  /**
   * When the reference output is valid, an attempt is accepted exactly
   * when it is valid on its own and makes the same claim.
   */
  lemma JudgeAccepts(outputLines: seq<seq<string>>, attemptLines: seq<seq<string>>, programs: seq<string>)
    requires forall i | 0 <= i < |programs| :: |programs[i]| >= 1
    requires Verify(outputLines, programs, None).0.None?
    ensures Judge(outputLines, attemptLines, programs).None? <==>
      Verify(attemptLines, programs, None).0.None? &&
      Verify(attemptLines, programs, None).1 == Verify(outputLines, programs, None).1
  {
    VerifyAccepts(outputLines, programs, None);
    VerifyAccepts(attemptLines, programs, None);
    VerifyAccepts(attemptLines, programs, Verify(outputLines, programs, None).1);
  }
}
