/**
 * The Naming Compromise judge (Code Jam 2020, round 3).  Given two names C
 * and J, the contestant picks a name N whose edit distances to C and to J
 * differ by at most one and add up to as little as possible; the judge
 * compares that sum with the one of its own answer.
 */
module NamingCompromise {
  import opened Wrappers
  import opened JudgeUtils

  // ---------------------------------------------------------------------
  // Edit distance
  // ---------------------------------------------------------------------

  function Min3(a: nat, b: nat, c: nat): nat
  {
    if a <= b && a <= c then a else if b <= c then b else c
  }

  /**
   * Levenshtein distance: the fewest insertions, deletions and
   * substitutions turning s into t, by the textbook recurrence.
   */
  function Lev(s: string, t: string): nat
    decreases |s| + |t|
  {
    if s == [] then |t|
    else if t == [] then |s|
    else Min3(Lev(s[1..], t) + 1, Lev(s, t[1..]) + 1, Lev(s[1..], t[1..]) + (if s[0] == t[0] then 0 else 1))
  }

  /** Dropping the first character of t changes the distance by at most one. */
  lemma {:induction false} DropFirstOfSecond(s: string, t: string)
    requires t != []
    ensures Lev(s, t[1..]) <= Lev(s, t) + 1
    decreases |s|
  {
    if s != [] {
      DropFirstOfSecond(s[1..], t);
      if t[1..] != [] {
        assert Lev(s, t[1..]) <= Lev(s[1..], t[1..]) + 1;
      }
    }
  }

  /** Dropping the first character of s changes the distance by at most one. */
  lemma {:induction false} DropFirstOfFirst(s: string, t: string)
    requires s != []
    ensures Lev(s[1..], t) <= Lev(s, t) + 1
    decreases |t|
  {
    if t != [] {
      DropFirstOfFirst(s, t[1..]);
      if s[1..] != [] {
        assert Lev(s[1..], t) <= Lev(s[1..], t[1..]) + 1;
      }
    }
  }

  /** Equal first characters are best kept: the source's shortcut. */
  lemma MatchingFirst(s: string, t: string)
    requires s != [] && t != [] && s[0] == t[0]
    ensures Lev(s, t) == Lev(s[1..], t[1..])
  {
    DropFirstOfSecond(s[1..], t);
    DropFirstOfFirst(s, t[1..]);
  }

  /** The distance does not depend on which string comes first. */
  lemma {:induction false} LevSymmetric(s: string, t: string)
    ensures Lev(s, t) == Lev(t, s)
    decreases |s| + |t|
  {
    if s != [] && t != [] {
      LevSymmetric(s[1..], t);
      LevSymmetric(s, t[1..]);
      LevSymmetric(s[1..], t[1..]);
    }
  }

  /** A string is at distance zero from itself only. */
  lemma {:induction false} LevZero(s: string, t: string)
    ensures Lev(s, t) == 0 <==> s == t
    decreases |s| + |t|
  {
    if s != [] && t != [] {
      if s[0] == t[0] {
        MatchingFirst(s, t);
        LevZero(s[1..], t[1..]);
        if s[1..] == t[1..] {
          assert s == [s[0]] + s[1..] && t == [t[0]] + t[1..];
        }
      } else {
        assert s[0] != t[0];
      }
    }
  }

  /** The distance is never more than the longer length. */
  lemma {:induction false} LevBound(s: string, t: string)
    ensures Lev(s, t) <= if |s| < |t| then |t| else |s|
    decreases |s| + |t|
  {
    if s != [] && t != [] {
      LevBound(s[1..], t[1..]);
    }
  }

  /** One cell of the dynamic program, as the source fills it. */
  lemma LevStep(s: string, t: string, i: nat, j: nat)
    requires i < |s| && j < |t|
    ensures Lev(s[i..], t[j..]) == if s[i] == t[j] then Lev(s[i + 1..], t[j + 1..])
      else Min3(Lev(s[i + 1..], t[j..]), Lev(s[i..], t[j + 1..]), Lev(s[i + 1..], t[j + 1..])) + 1
  {
    assert s[i..][1..] == s[i + 1..] && t[j..][1..] == t[j + 1..];
    if s[i] == t[j] {
      MatchingFirst(s[i..], t[j..]);
    }
  }

  /** A cell computed from its three neighbours, as the source does, holds the distance. */
  lemma LevCell(s: string, t: string, i: nat, j: nat, below: nat, right: nat, diagonal: nat, v: nat)
    requires i < |s| && j < |t|
    requires below == Lev(s[i + 1..], t[j..]) && right == Lev(s[i..], t[j + 1..]) && diagonal == Lev(s[i + 1..], t[j + 1..])
    requires v == if s[i] == t[j] then diagonal else Min3(below, right, diagonal) + 1
    ensures v == Lev(s[i..], t[j..])
  {
    LevStep(s, t, i, j);
  }

  /** The last column and the last row of the dynamic program. */
  lemma LevBorders(s: string, t: string, i: nat, j: nat)
    requires i <= |s| && j <= |t|
    ensures Lev(s[i..], t[|t|..]) == |s| - i
    ensures Lev(s[|s|..], t[j..]) == |t| - j
  {
    assert s[|s|..] == [] && t[|t|..] == [];
  }

  /**
   * The dynamic program over suffixes: cell (i, j) is the distance from
   * s[i..] to t[j..], filled from the last row and column backwards.  Only
   * the row below is kept, which is all a cell reads.
   */
  method ComputeEditDistance(s: string, t: string) returns (d: nat)
    ensures d == Lev(s, t)
  {
    var below: seq<nat> := seq(|t| + 1, j requires 0 <= j <= |t| => |t| - j);
    assert s[|s|..] == [];
    var i := |s|;
    while i > 0
      invariant 0 <= i <= |s| && |below| == |t| + 1
      invariant forall j {:trigger below[j]} | 0 <= j <= |t| :: below[j] == Lev(s[i..], t[j..])
    {
      i := i - 1;
      below := FillRow(below, s, t, i);
    }
    assert s[0..] == s && t[0..] == t;
    return below[0];
  }

  /** Row i of the dynamic program, from the last column backwards, given row i + 1. */
  method FillRow(below: seq<nat>, s: string, t: string, i: nat) returns (r: seq<nat>)
    requires i < |s| && |below| == |t| + 1
    requires forall j {:trigger below[j]} | 0 <= j <= |t| :: below[j] == Lev(s[i + 1..], t[j..])
    ensures |r| == |t| + 1 && forall j {:trigger r[j]} | 0 <= j <= |t| :: r[j] == Lev(s[i..], t[j..])
  {
    var row := new nat[|t| + 1];
    LevBorders(s, t, i, |t|);
    row[|t|] := |s| - i;
    var j := |t|;
    while j > 0
      invariant 0 <= j <= |t|
      invariant forall j' {:trigger row[j']} | j <= j' <= |t| :: row[j'] == Lev(s[i..], t[j'..])
    {
      j := j - 1;
      var v: nat;
      if s[i] == t[j] {
        v := below[j + 1];
      } else {
        v := Min3(below[j], row[j + 1], below[j + 1]) + 1;
      }
      LevCell(s, t, i, j, below[j], row[j + 1], below[j + 1], v);
      row[j] := v;
    }
    return row[..];
  }

  // ---------------------------------------------------------------------
  // Checking an answer
  // ---------------------------------------------------------------------

  /** An English letter; on upper-cased text, what Python's `isupper` accepts. */
  predicate IsLetter(c: char)
  {
    'A' <= c <= 'Z' || 'a' <= c <= 'z'
  }

  predicate Letters(n: string)
  {
    forall i | 0 <= i < |n| :: IsLetter(n[i])
  }

  /** On upper-cased text, being a letter is being an upper-case letter. */
  lemma UpperLetters(x: string)
    ensures Letters(Upper(x)) <==> forall i | 0 <= i < |x| :: 'A' <= Upper(x)[i] <= 'Z'
  {
  }

  function Abs(x: int): nat
  {
    if x < 0 then -x else x
  }

  const BadFormat := "Output is not well-formatted"
  const BadOutputPrefix := "Our output is incorrect: "
  const NonLetter := "At least one character was not an English alphabet letter"
  const TooLong := "String length is more than |C| + |J|. Edit distance cannot be optimal"

  function MoreError(d: int, best: int): string
  {
    "Solution has different edit distance (" + Decimal(d) + ") than our solution (" + Decimal(best) + ")"
  }

  function LessError(d: int, best: int): string
  {
    BadOutputPrefix + "Solution has less edit distance (" + Decimal(d) + ") than our solution (" + Decimal(best) + ")"
  }

  function TooFarError(dc: int, dj: int): string
  {
    "The edit distance to C (" + Decimal(dc) + ") is too far from the edit distance to J (" + Decimal(dj) + ")"
  }

  /**
   * A name the judge accepts: letters only, no longer than C and J
   * together, distances to C and J at most one apart, and, when a positive
   * reference total is given, the same total.
   */
  predicate Acceptable(n: string, c: string, j: string, best: Option<int>)
  {
    Letters(n)
    && |n| <= |c| + |j|
    && (best.Some? && best.value != 0 ==> Lev(c, n) + Lev(j, n) == best.value)
    && Abs(Lev(c, n) - Lev(j, n)) <= 1
  }

  /**
   * Checks one answer against the case (c, j).  `best` is the total edit
   * distance of our own answer, or None while our own answer is checked;
   * a total of zero is not compared, as Python treats it as false.  The
   * result is the answer's total distance, or the first error.
   */
  method VerifyOutput(lines: seq<seq<string>>, c: string, j: string, best: Option<int>) returns (r: Result<nat, string>)
    ensures r.Ok? <==> UpperToken(lines).Some? && Acceptable(UpperToken(lines).value, c, j, best)
    ensures r.Ok? ==> r.value == Lev(c, UpperToken(lines).value) + Lev(j, UpperToken(lines).value)
    ensures UpperToken(lines).None? ==> r == Err(BadFormat)
    ensures r.Err? && UpperToken(lines).Some? ==> r == NameError(UpperToken(lines).value, c, j, best)
  {
    if |lines| != 1 {
      return Err(BadFormat);
    }
    if |lines[0]| != 1 {
      return Err(BadFormat);
    }
    var s := Upper(lines[0][0]);
    assert UpperToken(lines) == Some(s);
    UpperLetters(lines[0][0]);
    r := CheckName(s, c, j, best);
  }

  /**
   * The first failed check on an upper-cased name, in the source's order:
   * a non-letter, the length, the total against ours, the two distances
   * too far apart.
   */
  ghost function NameError(n: string, c: string, j: string, best: Option<int>): Result<nat, string>
  {
    var total := Lev(c, n) + Lev(j, n);
    if !Letters(n) then Err(NonLetter)
    else if |n| > |c| + |j| then Err(TooLong)
    else if best.Some? && best.value != 0 && total < best.value then Err(LessError(total, best.value))
    else if best.Some? && best.value != 0 && total > best.value then Err(MoreError(total, best.value))
    else if Abs(Lev(c, n) - Lev(j, n)) > 1 then Err(TooFarError(Lev(c, n), Lev(j, n)))
    else Ok(total)
  }

  /** The checks after the format: what the name must satisfy, given upper-cased. */
  method CheckName(s: string, c: string, j: string, best: Option<int>) returns (r: Result<nat, string>)
    requires Letters(s) <==> forall i | 0 <= i < |s| :: 'A' <= s[i] <= 'Z'
    ensures r.Ok? <==> Acceptable(s, c, j, best)
    ensures r == NameError(s, c, j, best)
  {
    if exists i | 0 <= i < |s| :: !('A' <= s[i] <= 'Z') {
      return Err(NonLetter);
    }
    if |s| > |c| + |j| {
      return Err(TooLong);
    }
    var dc := ComputeEditDistance(c, s);
    var dj := ComputeEditDistance(j, s);
    if best.Some? && best.value != 0 {
      if dc + dj < best.value {
        return Err(LessError(dc + dj, best.value));
      } else if dc + dj > best.value {
        return Err(MoreError(dc + dj, best.value));
      }
    }
    if Abs(dc - dj) > 1 {
      return Err(TooFarError(dc, dj));
    }
    return Ok(dc + dj);
  }

  /** Our answer is checked first and sets the total the contestant must reach. */
  method VerifyCase(output: seq<seq<string>>, attempt: seq<seq<string>>, c: string, j: string) returns (e: Option<string>)
    ensures UpperToken(output).None? ==> e == Some(BadOutputPrefix + BadFormat)
    ensures e.None? <==>
      UpperToken(output).Some? && Acceptable(UpperToken(output).value, c, j, None)
      && UpperToken(attempt).Some?
      && Acceptable(UpperToken(attempt).value, c, j, Some(Lev(c, UpperToken(output).value) + Lev(j, UpperToken(output).value)))
  {
    var ours := VerifyOutput(output, c, j, None);
    if ours.Err? {
      return Some(BadOutputPrefix + ours.error);
    }
    var theirs := VerifyOutput(attempt, c, j, Some(ours.value));
    return if theirs.Err? then Some(theirs.error) else None;
  }
}
