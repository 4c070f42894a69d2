/**
 * The Senate Evacuation judge (Code Jam 2018, practice session).  Parties
 * are named by lower-case letters 'a', 'b', ...; each step of the plan
 * evacuates one or two senators, and after every step no party may hold an
 * absolute majority of the senators left.  The plan must empty the senate.
 */
module SenateEvacuation {
  import opened Wrappers
  import opened JudgeUtils
  import opened Sequences

  const AbsoluteMajority := "An absolute majority was achieved."
  const EvacuationIncomplete := "Evacuation incomplete."
  const InvalidStepLength := "Step with length not in {1,2}."
  const MoreThanOneLine := "More than one line in output."

  function InvalidParty(c: char, n: int): string
  {
    "Party " + [c] + " not valid (" + Decimal(n) + " parties in total)."
  }

  function PartyAlreadyFinished(c: char): string
  {
    "Party " + [c] + " already finished evacuating."
  }

  /** The party a letter names: 'a' is party 0. */
  function Party(c: char): int
  {
    c as int - 'a' as int
  }

  /** Some party holds more than half of the senators left. */
  predicate Majority(s: seq<int>)
  {
    exists i | 0 <= i < |s| :: 2 * s[i] > Sum(s)
  }

  predicate NonNegative(s: seq<int>)
  {
    forall i | 0 <= i < |s| :: s[i] >= 0
  }

  // ---------------------------------------------------------------------
  // The judge's reading of a plan, step by step
  // ---------------------------------------------------------------------

  /** One step's letters taken in order from the party sizes. */
  function Evacuate(sizes: seq<int>, step: string): Result<seq<int>, string>
    decreases |step|
  {
    if step == [] then Ok(sizes)
    else
      var p := Party(step[0]);
      if p < 0 || p >= |sizes| then Err(InvalidParty(step[0], |sizes|))
      else if sizes[p] < 1 then Err(PartyAlreadyFinished(step[0]))
      else Evacuate(sizes[p := sizes[p] - 1], step[1..])
  }

  /** The steps in order: each has one or two letters and leaves no majority. */
  function Follow(sizes: seq<int>, steps: seq<string>): Result<seq<int>, string>
    decreases |steps|
  {
    if steps == [] then Ok(sizes)
    else if |steps[0]| < 1 || |steps[0]| > 2 then Err(InvalidStepLength)
    else match Evacuate(sizes, steps[0])
      case Err(e) => Err(e)
      case Ok(next) => if Majority(next) then Err(AbsoluteMajority) else Follow(next, steps[1..])
  }

  /** The judge's verdict on one case: None when the plan is accepted. */
  function Verdict(lines: seq<seq<string>>, parties: seq<int>): Option<string>
  {
    if |lines| != 1 then Some(MoreThanOneLine)
    else match Follow(parties, lines[0])
      case Err(e) => Some(e)
      case Ok(left) => if Sum(left) > 0 then Some(EvacuationIncomplete) else None
  }

  // ---------------------------------------------------------------------
  // What an accepted plan is, by counting letters
  // ---------------------------------------------------------------------

  /** How many letters of w name party p. */
  function Count(w: string, p: int): nat
  {
    if w == [] then 0 else (if Party(w[0]) == p then 1 else 0) + Count(w[1..], p)
  }

  /** The plan's letters, step after step. */
  function Flatten(steps: seq<string>): string
  {
    if steps == [] then [] else steps[0] + Flatten(steps[1..])
  }

  /** The party sizes after the letters w have been taken away. */
  function Remaining(sizes: seq<int>, w: string): (r: seq<int>)
    ensures |r| == |sizes|
  {
    seq(|sizes|, i requires 0 <= i < |sizes| => sizes[i] - Count(w, i))
  }

  predicate InParties(w: string, n: int)
  {
    forall i | 0 <= i < |w| :: 0 <= Party(w[i]) < n
  }

  /**
   * A plan that empties the senate: every step has one or two letters, every
   * letter names a party, each party is named exactly as often as it has
   * senators, and after every step no party holds an absolute majority.
   */
  ghost predicate ValidPlan(parties: seq<int>, steps: seq<string>)
  {
    && (forall k | 0 <= k < |steps| :: 1 <= |steps[k]| <= 2)
    && InParties(Flatten(steps), |parties|)
    && (forall i | 0 <= i < |parties| :: Count(Flatten(steps), i) == parties[i])
    && forall k | 1 <= k <= |steps| :: !Majority(Remaining(parties, Flatten(steps[..k])))
  }

  lemma {:induction false} CountConcat(u: string, v: string, p: int)
    ensures Count(u + v, p) == Count(u, p) + Count(v, p)
  {
    if u == [] {
      assert u + v == v;
    } else {
      assert (u + v)[0] == u[0];
      assert (u + v)[1..] == u[1..] + v;
      CountConcat(u[1..], v, p);
    }
  }

  lemma RemainingConcat(sizes: seq<int>, u: string, v: string)
    ensures Remaining(Remaining(sizes, u), v) == Remaining(sizes, u + v)
  {
    forall i | 0 <= i < |sizes|
      ensures Remaining(Remaining(sizes, u), v)[i] == Remaining(sizes, u + v)[i]
    {
      CountConcat(u, v, i);
    }
  }

  lemma InPartiesConcat(u: string, v: string, n: int)
    ensures InParties(u + v, n) <==> InParties(u, n) && InParties(v, n)
  {
    if InParties(u, n) && InParties(v, n) {
      forall i | 0 <= i < |u + v| ensures 0 <= Party((u + v)[i]) < n {
        if i >= |u| {
          assert (u + v)[i] == v[i - |u|];
        }
      }
    }
    if InParties(u + v, n) {
      forall i | 0 <= i < |u| ensures 0 <= Party(u[i]) < n {
        assert u[i] == (u + v)[i];
      }
      forall i | 0 <= i < |v| ensures 0 <= Party(v[i]) < n {
        assert v[i] == (u + v)[|u| + i];
      }
    }
  }

  /** One step succeeds exactly when its letters name parties that still have those senators. */
  lemma {:induction false} EvacuateCounts(sizes: seq<int>, w: string)
    requires NonNegative(sizes)
    ensures Evacuate(sizes, w).Ok? <==> InParties(w, |sizes|) && NonNegative(Remaining(sizes, w))
    ensures Evacuate(sizes, w).Ok? ==> Evacuate(sizes, w).value == Remaining(sizes, w)
    decreases |w|
  {
    if w == [] {
      assert Remaining(sizes, w) == sizes;
    } else {
      var p := Party(w[0]);
      assert w == [w[0]] + w[1..];
      InPartiesConcat([w[0]], w[1..], |sizes|);
      if 0 <= p < |sizes| {
        if sizes[p] < 1 {
          assert Remaining(sizes, w)[p] < 0;
        } else {
          var next := sizes[p := sizes[p] - 1];
          EvacuateCounts(next, w[1..]);
          assert Remaining(next, w[1..]) == Remaining(sizes, w);
        }
      }
    }
  }

  lemma FlattenPrefix(steps: seq<string>, k: nat)
    requires 1 <= k <= |steps|
    ensures Flatten(steps[..k]) == steps[0] + Flatten(steps[1..][..k - 1])
  {
    assert steps[..k][1..] == steps[1..][..k - 1];
  }

  lemma FlattenFirst(steps: seq<string>)
    requires steps != []
    ensures Flatten(steps[..1]) == steps[0]
  {
    FlattenPrefix(steps, 1);
    assert steps[1..][..0] == [];
    assert steps[0] + [] == steps[0];
  }

  /** The rest of a valid plan after its first step is a valid plan for what that step leaves. */
  lemma ValidPlanStep(sizes: seq<int>, steps: seq<string>)
    requires steps != [] && 1 <= |steps[0]| <= 2 && InParties(steps[0], |sizes|)
    requires !Majority(Remaining(sizes, steps[0]))
    ensures ValidPlan(sizes, steps) <==> ValidPlan(Remaining(sizes, steps[0]), steps[1..])
  {
    var step, rest := steps[0], steps[1..];
    var next := Remaining(sizes, step);
    InPartiesConcat(step, Flatten(rest), |sizes|);
    RemainingConcat(sizes, step, Flatten(rest));
    forall i | 0 <= i < |sizes|
      ensures Count(Flatten(steps), i) == sizes[i] <==> Count(Flatten(rest), i) == next[i]
    {
      CountConcat(step, Flatten(rest), i);
    }
    forall k | 1 <= k <= |rest|
      ensures Remaining(next, Flatten(rest[..k])) == Remaining(sizes, Flatten(steps[..k + 1]))
    {
      FlattenPrefix(steps, k + 1);
      RemainingConcat(sizes, step, Flatten(rest[..k]));
    }
    FlattenFirst(steps);
    if ValidPlan(next, rest) {
      forall k | 1 <= k <= |steps| ensures !Majority(Remaining(sizes, Flatten(steps[..k]))) {
        if k > 1 {
          assert Remaining(next, Flatten(rest[..k - 1])) == Remaining(sizes, Flatten(steps[..k]));
        }
      }
      forall k | 0 <= k < |steps| ensures 1 <= |steps[k]| <= 2 {
        if k > 0 {
          assert steps[k] == rest[k - 1];
        }
      }
    }
    if ValidPlan(sizes, steps) {
      forall k | 1 <= k <= |rest| ensures !Majority(Remaining(next, Flatten(rest[..k]))) {
        assert !Majority(Remaining(sizes, Flatten(steps[..k + 1])));
      }
      forall k | 0 <= k < |rest| ensures 1 <= |rest[k]| <= 2 {
        assert rest[k] == steps[k + 1];
      }
    }
  }

  lemma {:induction false} SumNonNegative(s: seq<int>)
    requires NonNegative(s)
    ensures Sum(s) >= 0
    ensures Sum(s) == 0 <==> forall i | 0 <= i < |s| :: s[i] == 0
  {
    if s != [] {
      SumNonNegative(s[..|s| - 1]);
      if Sum(s) == 0 {
        forall i | 0 <= i < |s| ensures s[i] == 0 {
          if i < |s| - 1 {
            assert s[..|s| - 1][i] == s[i];
          }
        }
      }
    }
  }

  /** Following the plan empties the senate exactly when the plan is valid. */
  lemma {:induction false} FollowEmpties(sizes: seq<int>, steps: seq<string>)
    requires NonNegative(sizes)
    ensures Follow(sizes, steps).Ok? ==> NonNegative(Follow(sizes, steps).value)
    ensures (Follow(sizes, steps).Ok? && Sum(Follow(sizes, steps).value) == 0) <==> ValidPlan(sizes, steps)
    decreases |steps|
  {
    if steps == [] {
      SumNonNegative(sizes);
      assert Remaining(sizes, Flatten(steps)) == sizes;
    } else {
      var step, rest := steps[0], steps[1..];
      assert Flatten(steps) == step + Flatten(rest);
      InPartiesConcat(step, Flatten(rest), |sizes|);
      if 1 <= |step| <= 2 {
        EvacuateCounts(sizes, step);
        if Evacuate(sizes, step).Err? {
          if ValidPlan(sizes, steps) {
            var i :| 0 <= i < |sizes| && Remaining(sizes, step)[i] < 0;
            CountConcat(step, Flatten(rest), i);
          }
        } else {
          var next := Remaining(sizes, step);
          FlattenFirst(steps);
          if !Majority(next) {
            FollowEmpties(next, rest);
            ValidPlanStep(sizes, steps);
          }
        }
      }
    }
  }

  /**
   * The judge accepts a one-line plan exactly when it is valid: when the
   * parties start non-empty, so the party sizes are never negative.
   */
  lemma VerdictAccepts(lines: seq<seq<string>>, parties: seq<int>)
    requires NonNegative(parties)
    ensures Verdict(lines, parties).None? <==> |lines| == 1 && ValidPlan(parties, lines[0])
  {
    if |lines| == 1 {
      FollowEmpties(parties, lines[0]);
      if Follow(parties, lines[0]).Ok? {
        SumNonNegative(Follow(parties, lines[0]).value);
      }
    }
  }

  /** An accepted plan evacuates every senator exactly once: its letters number the senators. */
  lemma {:induction false} CountsTotal(w: string, n: nat)
    requires InParties(w, n)
    ensures Sum(seq(n, i => Count(w, i))) == |w|
  {
    if w == [] {
      SumNonNegative(seq(n, i => Count(w, i)));
    } else {
      CountsTotal(w[1..], n);
      var p := Party(w[0]);
      assert 0 <= Party(w[0 + 0]) < n;
      var before, after := seq(n, i => Count(w[1..], i)), seq(n, i => Count(w, i));
      assert forall i | 0 <= i < n :: after[i] == before[p := before[p] + 1][i];
      assert after == before[p := before[p] + 1];
      SumUpdate(before, p, 1);
    }
  }

  lemma AcceptedEvacuatesAll(lines: seq<seq<string>>, parties: seq<int>)
    requires NonNegative(parties) && Verdict(lines, parties).None?
    ensures |Flatten(lines[0])| == Sum(parties)
  {
    VerdictAccepts(lines, parties);
    var w := Flatten(lines[0]);
    CountsTotal(w, |parties|);
    assert seq(|parties|, i => Count(w, i)) == parties;
  }

  // ---------------------------------------------------------------------
  // The judge
  // ---------------------------------------------------------------------

  /**
   * The source's _VerifyCase: works on a copy of the party sizes, so the
   * case itself is left as it was (the method may modify nothing it was given).
   */
  method VerifyCase(attemptLines: seq<seq<string>>, parties: array<int>) returns (r: Option<string>)
    ensures r == Verdict(attemptLines, parties[..])
  {
    if |attemptLines| != 1 {
      return Some(MoreThanOneLine);
    }
    var n := parties.Length;
    var sizes := new int[n];
    forall i | 0 <= i < n {
      sizes[i] := parties[i];
    }
    assert sizes[..] == parties[..];
    var steps := attemptLines[0];
    assert steps[0..] == steps;
    for k := 0 to |steps|
      invariant Follow(parties[..], steps) == Follow(sizes[..], steps[k..])
    {
      var step := steps[k];
      assert steps[k..][1..] == steps[k + 1..];
      if |step| < 1 || |step| > 2 {
        return Some(InvalidStepLength);
      }
      ghost var before := sizes[..];
      for j := 0 to |step|
        invariant Evacuate(before, step) == Evacuate(sizes[..], step[j..])
      {
        assert step[j..][1..] == step[j + 1..];
        var p := Party(step[j]);
        if p < 0 || p >= n {
          return Some(InvalidParty(step[j], n));
        }
        if sizes[p] < 1 {
          return Some(PartyAlreadyFinished(step[j]));
        }
        sizes[p] := sizes[p] - 1;
      }
      assert step[|step|..] == [];
      var majority := HasMajority(sizes);
      if majority {
        return Some(AbsoluteMajority);
      }
    }
    assert steps[|steps|..] == [];
    if Sum(sizes[..]) > 0 {
      return Some(EvacuationIncomplete);
    }
    return None;
  }

  /** The judge's check after a step: some party's size, doubled, exceeds the total. */
  method HasMajority(sizes: array<int>) returns (b: bool)
    ensures b <==> Majority(sizes[..])
  {
    for i := 0 to sizes.Length
      invariant forall i' | 0 <= i' < i :: 2 * sizes[i'] <= Sum(sizes[..])
    {
      if sizes[i] * 2 > Sum(sizes[..]) {
        return true;
      }
    }
    return false;
  }
}
