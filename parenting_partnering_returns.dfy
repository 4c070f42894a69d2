/**
 * The Parenting Partnering Returns judge (Code Jam 2020, qualification
 * round).  Each activity [start, end) goes to Cameron ('C') or Jamie ('J');
 * an answer is valid when neither parent gets two overlapping activities,
 * and IMPOSSIBLE is valid when our own answer finds no schedule either.
 */
module ParentingPartneringReturns {
  import opened Wrappers
  import opened JudgeUtils
  import opened Sequences

  datatype Activity = Activity(start: int, end: int)

  /** Python's ordering of [start, end] lists: by start, then by end. */
  predicate Before(x: Activity, y: Activity)
  {
    x.start < y.start || (x.start == y.start && x.end < y.end)
  }

  lemma BeforeTotal()
    ensures StrictTotalOrder(Before)
  {
  }

  /** Two half-open activities share some moment; touching ends do not count. */
  predicate Overlap(x: Activity, y: Activity)
  {
    x.start < y.end && y.start < x.end
  }

  /** Two different entries of the list overlap. */
  ghost predicate Overlapping(acts: seq<Activity>)
  {
    exists p, q | 0 <= p < |acts| && 0 <= q < |acts| && p != q :: Overlap(acts[p], acts[q])
  }

  /** Every activity ends after it starts, as the input guarantees. */
  predicate WellFormed(acts: seq<Activity>)
  {
    forall k | 0 <= k < |acts| :: acts[k].start < acts[k].end
  }

  /** The source's scan: some activity ends after the next one starts. */
  function AdjacentOverlap(u: seq<Activity>): (r: bool)
    ensures r <==> exists k | 0 <= k < |u| - 1 :: u[k].end > u[k + 1].start
  {
    if |u| < 2 then false
    else if u[0].end > u[1].start then true
    else
      var r := AdjacentOverlap(u[1..]);
      assert forall k | 1 <= k < |u| :: u[1..][k - 1] == u[k];
      r
  }

  /** On a sorted list, the adjacent scan finds an overlap whenever there is one. */
  lemma SortedScan(u: seq<Activity>)
    requires SortedBy(u, Before) && WellFormed(u)
    ensures AdjacentOverlap(u) <==> Overlapping(u)
  {
    if AdjacentOverlap(u) {
      var k :| 0 <= k < |u| - 1 && u[k].end > u[k + 1].start;
      assert !Before(u[k + 1], u[k]);
      assert Overlap(u[k], u[k + 1]);
    }
    if Overlapping(u) {
      var p, q :| 0 <= p < |u| && 0 <= q < |u| && p != q && Overlap(u[p], u[q]);
      var i, j := if p < q then p else q, if p < q then q else p;
      assert u[i].end > u[j].start;
      if i + 1 < j {
        assert !Before(u[j], u[i + 1]);
      }
      assert u[i].end > u[i + 1].start;
    }
  }

  /** Rearranging the list keeps any overlap. */
  lemma PermutedOverlap(a: seq<Activity>, b: seq<Activity>)
    requires multiset(a) == multiset(b) && Overlapping(a)
    ensures Overlapping(b)
  {
    var p, q :| 0 <= p < |a| && 0 <= q < |a| && p != q && Overlap(a[p], a[q]);
    if a[p] == a[q] {
      var lo, hi := if p < q then p else q, if p < q then q else p;
      TwoOccurrences(a, a[p]);
      assert a[lo] == a[p] && a[hi] == a[p];
      TwoOccurrences(b, a[p]);
      var p', q' :| 0 <= p' < q' < |b| && b[p'] == a[p] && b[q'] == a[p];
      assert Overlap(b[p'], b[q']);
    } else {
      assert a[p] in multiset(b) && a[q] in multiset(b);
      var p' :| 0 <= p' < |b| && b[p'] == a[p];
      var q' :| 0 <= q' < |b| && b[q'] == a[q];
      assert Overlap(b[p'], b[q']);
    }
  }

  /** Sorting first and scanning neighbours finds exactly the overlaps of the list. */
  lemma SortThenScan(acts: seq<Activity>)
    requires StrictTotalOrder(Before) && WellFormed(acts)
    ensures AdjacentOverlap(SortBy(acts, Before)) <==> Overlapping(acts)
  {
    var u := SortBy(acts, Before);
    assert WellFormed(u) by {
      forall k | 0 <= k < |u| ensures u[k].start < u[k].end {
        assert u[k] in multiset(acts);
      }
    }
    SortedScan(u);
    if Overlapping(acts) {
      PermutedOverlap(acts, u);
    }
    if Overlapping(u) {
      PermutedOverlap(u, acts);
    }
  }

  /**
   * Whether some two activities of the list overlap: the source sorts the
   * list and compares each activity with the next.
   */
  function IntervalsIntersect(acts: seq<Activity>): (r: bool)
    ensures WellFormed(acts) ==> (r <==> Overlapping(acts))
  {
    BeforeTotal();
    if WellFormed(acts) then SortThenScan(acts); AdjacentOverlap(SortBy(acts, Before))
    else AdjacentOverlap(SortBy(acts, Before))
  }

  /** The positions given to one parent, in order. */
  function Indices(s: string, who: char): (ix: seq<nat>)
    ensures forall k | 0 <= k < |ix| :: ix[k] < |s| && s[ix[k]] == who
    ensures forall k, l | 0 <= k < l < |ix| :: ix[k] < ix[l]
    ensures forall p | 0 <= p < |s| && s[p] == who :: p in ix
  {
    if s == [] then []
    else
      var n := |s| - 1;
      var ix := Indices(s[..n], who);
      assert forall p | 0 <= p < n :: s[..n][p] == s[p];
      ix + if s[n] == who then [n] else []
  }

  /** The activities given to one parent, in input order: the source's lists c and j. */
  function Assigned(s: string, times: seq<Activity>, who: char): (acts: seq<Activity>)
    requires |s| == |times|
  {
    var ix := Indices(s, who);
    seq(|ix|, k requires 0 <= k < |ix| => times[ix[k]])
  }

  /** One parent has two overlapping activities. */
  ghost predicate Conflict(s: string, times: seq<Activity>, who: char)
    requires |s| == |times|
  {
    exists p, q | 0 <= p < |s| && 0 <= q < |s| && p != q && s[p] == who && s[q] == who :: Overlap(times[p], times[q])
  }

  /** A parent's list grows by one activity at a time, as the source's loop appends. */
  lemma AssignedStep(s: string, times: seq<Activity>, who: char, i: nat)
    requires |s| == |times| && i < |s|
    ensures Assigned(s[..i + 1], times[..i + 1], who)
      == Assigned(s[..i], times[..i], who) + if s[i] == who then [times[i]] else []
  {
    assert s[..i + 1][..i] == s[..i];
    var ix := Indices(s[..i], who);
    assert Indices(s[..i + 1], who) == ix + if s[i] == who then [i] else [];
  }

  /** Two overlapping activities of a parent's list come from two different positions. */
  lemma AssignedToConflict(s: string, times: seq<Activity>, who: char)
    requires |s| == |times| && Overlapping(Assigned(s, times, who))
    ensures Conflict(s, times, who)
  {
    var ix := Indices(s, who);
    var acts := Assigned(s, times, who);
    var k, l :| 0 <= k < |acts| && 0 <= l < |acts| && k != l && Overlap(acts[k], acts[l]);
    assert ix[k] != ix[l] by {
      if k < l { assert ix[k] < ix[l]; } else { assert ix[l] < ix[k]; }
    }
    assert acts[k] == times[ix[k]] && acts[l] == times[ix[l]];
    assert s[ix[k]] == who && s[ix[l]] == who;
  }

  /** Two overlapping activities of a parent both land in that parent's list. */
  lemma ConflictToAssigned(s: string, times: seq<Activity>, who: char)
    requires |s| == |times| && Conflict(s, times, who)
    ensures Overlapping(Assigned(s, times, who))
  {
    var ix := Indices(s, who);
    var acts := Assigned(s, times, who);
    var p, q :| 0 <= p < |s| && 0 <= q < |s| && p != q && s[p] == who && s[q] == who && Overlap(times[p], times[q]);
    assert p in ix && q in ix;
    var k :| 0 <= k < |ix| && ix[k] == p;
    var l :| 0 <= l < |ix| && ix[l] == q;
    assert acts[k] == times[p] && acts[l] == times[q];
  }

  /** The lists the source builds overlap exactly when a parent has a conflict. */
  lemma AssignedConflict(s: string, times: seq<Activity>, who: char)
    requires |s| == |times|
    ensures Overlapping(Assigned(s, times, who)) <==> Conflict(s, times, who)
    ensures WellFormed(times) ==> WellFormed(Assigned(s, times, who))
  {
    if Overlapping(Assigned(s, times, who)) {
      AssignedToConflict(s, times, who);
    }
    if Conflict(s, times, who) {
      ConflictToAssigned(s, times, who);
    }
  }

  const BadFormat := "Output is not well-formatted"
  const BadOutputPrefix := "Our output is incorrect: "
  const BadImpossibleClaim := "Solution claims a partition does not exist while our solution finds one"
  const BadPossibleClaim := BadOutputPrefix + "Solution shows that a partition exists while our solution does not find one"
  const InvalidLength := "The length of the output is not equal to N"
  const InvalidCharacter := "A character neither C nor J is found"
  const CameronOverlap := "Cameron covers overlapping activities"
  const JamieOverlap := "Jamie covers overlapping activities"
  const Impossible := "IMPOSSIBLE"

  predicate OnlyCJ(s: string)
  {
    forall i | 0 <= i < |s| :: s[i] == 'C' || s[i] == 'J'
  }

  /**
   * The judge's reading of a valid answer: IMPOSSIBLE claims no schedule
   * (`claimed` false), a schedule string with neither parent's activities
   * intersecting claims one.
   */
  predicate VerifiedAs(lines: seq<seq<string>>, times: seq<Activity>, claimed: bool)
  {
    UpperToken(lines).Some? &&
    var s := UpperToken(lines).value;
    if s == Impossible then !claimed
    else (claimed && |s| == |times| && OnlyCJ(s)
      && !IntervalsIntersect(Assigned(s, times, 'C'))
      && !IntervalsIntersect(Assigned(s, times, 'J')))
  }

  /**
   * On well-formed activities, a schedule the judge accepts is exactly one
   * where neither parent has two overlapping activities.
   */
  lemma VerifiedAsSchedule(lines: seq<seq<string>>, times: seq<Activity>)
    requires WellFormed(times) && UpperToken(lines).Some? && UpperToken(lines).value != Impossible
    ensures VerifiedAs(lines, times, true) <==>
      var s := UpperToken(lines).value;
      |s| == |times| && OnlyCJ(s) && !Conflict(s, times, 'C') && !Conflict(s, times, 'J')
  {
    var s := UpperToken(lines).value;
    if |s| == |times| {
      AssignedConflict(s, times, 'C');
      AssignedConflict(s, times, 'J');
    }
  }

  /**
   * Checks one answer.  Ok(false) for IMPOSSIBLE, Ok(true) for a valid
   * schedule, otherwise the first error.
   */
  method VerifyOutput(lines: seq<seq<string>>, times: seq<Activity>) returns (r: Result<bool, string>)
    ensures UpperToken(lines).None? ==> r == Err(BadFormat)
    ensures UpperToken(lines) == Some(Impossible) ==> r == Ok(false)
    ensures r.Ok? <==> VerifiedAs(lines, times, false) || VerifiedAs(lines, times, true)
    ensures r.Ok? ==> VerifiedAs(lines, times, r.value)
    ensures (UpperToken(lines).Some? && UpperToken(lines).value != Impossible && |UpperToken(lines).value| != |times|)
      ==> r == Err(InvalidLength)
    ensures (UpperToken(lines).Some? && UpperToken(lines).value != Impossible && |UpperToken(lines).value| == |times|)
      ==> var s := UpperToken(lines).value;
        (!OnlyCJ(s) ==> r == Err(InvalidCharacter))
        && (OnlyCJ(s) && IntervalsIntersect(Assigned(s, times, 'C')) ==> r == Err(CameronOverlap))
        && (OnlyCJ(s) && !IntervalsIntersect(Assigned(s, times, 'C')) && IntervalsIntersect(Assigned(s, times, 'J'))
          ==> r == Err(JamieOverlap))
  {
    if |lines| != 1 || |lines[0]| != 1 {
      return Err(BadFormat);
    }
    var s := Upper(lines[0][0]);
    if s == Impossible {
      return Ok(false);
    }
    if |s| != |times| {
      return Err(InvalidLength);
    }
    var c: seq<Activity> := [];
    var j: seq<Activity> := [];
    for i := 0 to |times|
      invariant OnlyCJ(s[..i])
      invariant c == Assigned(s[..i], times[..i], 'C')
      invariant j == Assigned(s[..i], times[..i], 'J')
    {
      AssignedStep(s, times, 'C', i);
      AssignedStep(s, times, 'J', i);
      if s[i] == 'C' {
        c := c + [times[i]];
      } else if s[i] == 'J' {
        j := j + [times[i]];
      } else {
        return Err(InvalidCharacter);
      }
    }
    assert s[..|times|] == s && times[..|times|] == times;
    if IntervalsIntersect(c) {
      return Err(CameronOverlap);
    }
    if IntervalsIntersect(j) {
      return Err(JamieOverlap);
    }
    return Ok(true);
  }

  /**
   * Checks our answer, then the attempt, then that both agree on whether a
   * schedule exists.
   */
  method VerifyCase(output: seq<seq<string>>, attempt: seq<seq<string>>, times: seq<Activity>) returns (e: Option<string>)
    ensures UpperToken(output).None? ==> e == Some(BadOutputPrefix + BadFormat)
    ensures e.None? <==>
      (VerifiedAs(output, times, true) && VerifiedAs(attempt, times, true))
      || (VerifiedAs(output, times, false) && VerifiedAs(attempt, times, false))
    ensures VerifiedAs(output, times, false) && VerifiedAs(attempt, times, true) ==> e == Some(BadPossibleClaim)
    ensures VerifiedAs(output, times, true) && VerifiedAs(attempt, times, false) ==> e == Some(BadImpossibleClaim)
  {
    var ours := VerifyOutput(output, times);
    if ours.Err? {
      return Some(BadOutputPrefix + ours.error);
    }
    var theirs := VerifyOutput(attempt, times);
    if theirs.Err? {
      return Some(theirs.error);
    }
    if !ours.value && theirs.value {
      return Some(BadPossibleClaim);
    }
    if ours.value && !theirs.value {
      return Some(BadImpossibleClaim);
    }
    return None;
  }
}
