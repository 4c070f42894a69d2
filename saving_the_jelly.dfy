/**
 * The Saving the Jelly judge (Code Jam 2022, round 2).  N children and N + 1
 * sweets lie in the plane; sweet 1 is the blue-berry jelly nobody may eat.
 * An answer is IMPOSSIBLE or an order in which children call out sweets:
 * each child takes a sweet no other child has eaten, and that sweet must be
 * no farther from the child than any sweet still on the table (sweet 1
 * included).  The judge replays the order with "taken" and "given" flags.
 */
module SavingTheJelly {
  import opened Wrappers
  import opened JudgeUtils

  type Point = (int, int)

  /** A parsed answer: the possibility token (lower-cased) and the (child, sweet) pairs in order. */
  datatype CaseOutput = CaseOutput(possibility: string, permutation: seq<(int, int)>)

  /** The outcome of a case: accepted, a wrong answer, or an error in the judge's own answer. */
  datatype Verdict = Correct | Wrong(reason: string) | JudgeError(reason: string)

  /** Why the judge refuses a step of an order. */
  datatype Refusal =
    | ChildOutOfRange(a: int, n: int)
    | ChildRepeated(a: int)
    | ForbiddenSweet(a: int)
    | SweetOutOfRange(b: int, m: int)
    | SweetEaten(b: int)
    | NotClosest(a: int, b: int, d0: int, i: int, d1: int)

  /** The judge's message for a refusal; never empty. */
  function Message(r: Refusal): (m: string)
    ensures |m| > 0
  {
    match r
    case ChildOutOfRange(a, n) => "child number " + Decimal(a) + " is not in range [1, " + Decimal(n) + "]."
    case ChildRepeated(a) => "child number " + Decimal(a) + " appears multiple times."
    case ForbiddenSweet(a) => "child number " + Decimal(a) + " is getting forbidden sweet #1"
    case SweetOutOfRange(b, m) => "sweet number " + Decimal(b) + " is not in range [2, " + Decimal(m) + "]"
    case SweetEaten(b) => "sweet number " + Decimal(b) + " has already been eaten."
    case NotClosest(a, b, d0, i, d1) =>
      "child " + Decimal(a) + " can't be assigned sweet " + Decimal(b) + " which is at a distance^2 = " + Decimal(d0)
      + " because sweet " + Decimal(i) + " is still free and is at a smaller distance from them = " + Decimal(d1)
  }

  const ContestantOnlyAnswer := "Contestant found answer judge did not find!"
  const JudgeOnlyAnswer := "Contestant did not find an answer but the judge did"

  /** The squared Euclidean distance: never negative, and zero only between equal points. */
  function Dist2(a: Point, b: Point): (d: int)
    ensures d >= 0 && (d == 0 <==> a == b)
  {
    var dx := a.0 - b.0;
    var dy := a.1 - b.1;
    assert dx * dx >= 0 && dy * dy >= 0;
    assert dx != 0 ==> dx * dx > 0;
    assert dy != 0 ==> dy * dy > 0;
    dx * dx + dy * dy
  }

  lemma Dist2Symmetric(a: Point, b: Point)
    ensures Dist2(a, b) == Dist2(b, a)
  {
    var dx, dy := a.0 - b.0, a.1 - b.1;
    assert (-dx) * (-dx) == dx * dx && (-dy) * (-dy) == dy * dy;
  }

  // ---------------------------------------------------------------------
  // What an accepted order is
  // ---------------------------------------------------------------------

  /** Sweet s was eaten in the first k steps of the order. */
  predicate Eaten(perm: seq<(int, int)>, k: nat, s: int)
    requires k <= |perm|
  {
    exists i | 0 <= i < k :: perm[i].1 == s
  }

  /** Child c took a sweet in the first k steps of the order. */
  predicate Served(perm: seq<(int, int)>, k: nat, c: int)
    requires k <= |perm|
  {
    exists i | 0 <= i < k :: perm[i].0 == c
  }

  /**
   * Step j of the order is allowed: a child in 1..n not served before takes
   * a sweet in 2..n+1 not eaten before, and no sweet left on the table after
   * that step is closer to the child.
   */
  predicate GoodStep(perm: seq<(int, int)>, children: seq<Point>, sweets: seq<Point>, j: nat)
    requires j < |perm| && |sweets| == |children| + 1
  {
    var (a, b) := perm[j];
    var n := |children|;
    && 1 <= a <= n && 2 <= b <= n + 1
    && !Served(perm, j, a) && !Eaten(perm, j, b)
    && forall s | 0 <= s <= n ::
         Eaten(perm, j + 1, s + 1) || Dist2(children[a - 1], sweets[s]) >= Dist2(children[a - 1], sweets[b - 1])
  }

  /** Every step of the order is allowed. */
  predicate ValidOrder(perm: seq<(int, int)>, children: seq<Point>, sweets: seq<Point>)
    requires |sweets| == |children| + 1
  {
    forall j | 0 <= j < |perm| :: GoodStep(perm, children, sweets, j)
  }

  // ---------------------------------------------------------------------
  // The judge's replay of an order
  // ---------------------------------------------------------------------

  /** The flags after some steps: which children were given a sweet, which sweets are taken. */
  datatype Flags = Flags(given: seq<bool>, taken: seq<bool>)

  /** The first free sweet from i on that is closer to the child than d0. */
  function Closer(child: Point, sweets: seq<Point>, taken: seq<bool>, d0: int, i: nat): (r: Option<int>)
    requires |taken| == |sweets| && i >= 1
    ensures r.Some? ==> i <= r.value <= |sweets|
    decreases |sweets| + 1 - i
  {
    if i > |sweets| then None
    else if !taken[i - 1] && Dist2(child, sweets[i - 1]) < d0 then Some(i)
    else Closer(child, sweets, taken, d0, i + 1)
  }

  /** One step of the replay, with its checks in the judge's order. */
  function Step(p: (int, int), children: seq<Point>, sweets: seq<Point>, f: Flags): (r: Result<Flags, Refusal>)
    requires |f.given| == |children| && |f.taken| == |sweets| == |children| + 1
    ensures r.Ok? ==> |r.value.given| == |children| && |r.value.taken| == |sweets|
  {
    var (a, b) := p;
    var n := |children|;
    if a < 1 || a > n then Err(ChildOutOfRange(a, n))
    else if f.given[a - 1] then Err(ChildRepeated(a))
    else if b == 1 then Err(ForbiddenSweet(a))
    else if b < 2 || b > n + 1 then Err(SweetOutOfRange(b, n + 1))
    else if f.taken[b - 1] then Err(SweetEaten(b))
    else
      var taken := f.taken[b - 1 := true];
      var d0 := Dist2(children[a - 1], sweets[b - 1]);
      match Closer(children[a - 1], sweets, taken, d0, 1)
      case Some(i) => Err(NotClosest(a, b, d0, i, Dist2(children[a - 1], sweets[i - 1])))
      case None => Ok(Flags(f.given[a - 1 := true], taken))
  }

  /** The first k steps replayed from no child given and no sweet taken, or the first step's error. */
  function Replay(perm: seq<(int, int)>, children: seq<Point>, sweets: seq<Point>, k: nat): (r: Result<Flags, Refusal>)
    requires k <= |perm| && |sweets| == |children| + 1
    ensures r.Ok? ==> |r.value.given| == |children| && |r.value.taken| == |sweets|
  {
    if k == 0 then Ok(Flags(seq(|children|, _ => false), seq(|sweets|, _ => false)))
    else match Replay(perm, children, sweets, k - 1)
      case Err(e) => Err(e)
      case Ok(f) => Step(perm[k - 1], children, sweets, f)
  }

  /** The judge's checkIsCorrect: the empty string, or the first step's error. */
  function CheckIsCorrect(perm: seq<(int, int)>, children: seq<Point>, sweets: seq<Point>): string
    requires |sweets| == |children| + 1
  {
    match Replay(perm, children, sweets, |perm|)
    case Err(e) => Message(e)
    case Ok(_) => ""
  }

  /**
   * The judge's JudgeCase: its own order must pass, then the attempt's;
   * then the two must agree on the possibility token.
   */
  function JudgeCase(children: seq<Point>, sweets: seq<Point>, judge: CaseOutput, attempt: CaseOutput): Verdict
    requires |sweets| == |children| + 1
  {
    var judgeError := CheckIsCorrect(judge.permutation, children, sweets);
    if judgeError != "" then JudgeError(judgeError)
    else
      var contestantError := CheckIsCorrect(attempt.permutation, children, sweets);
      if contestantError != "" then Wrong(contestantError)
      else if judge.possibility == attempt.possibility then Correct
      else if attempt.possibility == "possible" then JudgeError(ContestantOnlyAnswer)
      else Wrong(JudgeOnlyAnswer)
  }

  // ---------------------------------------------------------------------
  // The replay accepts exactly the valid orders
  // ---------------------------------------------------------------------

  /** The flags after k steps record exactly the children served and the sweets eaten. */
  predicate Records(perm: seq<(int, int)>, k: nat, f: Flags)
    requires k <= |perm|
  {
    && (forall c | 0 <= c < |f.given| :: f.given[c] <==> Served(perm, k, c + 1))
    && forall s | 0 <= s < |f.taken| :: f.taken[s] <==> Eaten(perm, k, s + 1)
  }

  /** The closer-sweet search finds nothing exactly when every free sweet from i on is at least d0 away. */
  lemma {:induction false} CloserNone(child: Point, sweets: seq<Point>, taken: seq<bool>, d0: int, i: nat)
    requires |taken| == |sweets| && i >= 1
    ensures Closer(child, sweets, taken, d0, i).None? <==>
      forall s | i - 1 <= s < |sweets| :: taken[s] || Dist2(child, sweets[s]) >= d0
    decreases |sweets| + 1 - i
  {
    if i <= |sweets| {
      CloserNone(child, sweets, taken, d0, i + 1);
    }
  }

  /** A step from flags recording k steps succeeds exactly when step k is allowed, and records k + 1 steps. */
  lemma StepRecords(perm: seq<(int, int)>, children: seq<Point>, sweets: seq<Point>, k: nat, f: Flags)
    requires k < |perm| && |sweets| == |children| + 1
    requires |f.given| == |children| && |f.taken| == |sweets|
    requires Records(perm, k, f)
    ensures Step(perm[k], children, sweets, f).Ok? <==> GoodStep(perm, children, sweets, k)
    ensures Step(perm[k], children, sweets, f).Ok? ==> Records(perm, k + 1, Step(perm[k], children, sweets, f).value)
  {
    var (a, b) := perm[k];
    var n := |children|;
    if 1 <= a <= n && 2 <= b <= n + 1 && !f.given[a - 1] && !f.taken[b - 1] {
      var taken := f.taken[b - 1 := true];
      var d0 := Dist2(children[a - 1], sweets[b - 1]);
      forall s | 0 <= s < |taken| ensures taken[s] <==> Eaten(perm, k + 1, s + 1) {
        if s != b - 1 && Eaten(perm, k + 1, s + 1) {
          var i :| 0 <= i < k + 1 && perm[i].1 == s + 1;
        }
      }
      CloserNone(children[a - 1], sweets, taken, d0, 1);
      var given := f.given[a - 1 := true];
      forall c | 0 <= c < |given| ensures given[c] <==> Served(perm, k + 1, c + 1) {
        if c != a - 1 && Served(perm, k + 1, c + 1) {
          var i :| 0 <= i < k + 1 && perm[i].0 == c + 1;
        }
      }
    }
  }

  /** The replay of k steps, when it succeeds, records them. */
  lemma {:induction false} ReplayRecords(perm: seq<(int, int)>, children: seq<Point>, sweets: seq<Point>, k: nat)
    requires k <= |perm| && |sweets| == |children| + 1
    ensures Replay(perm, children, sweets, k).Ok? ==> Records(perm, k, Replay(perm, children, sweets, k).value)
  {
    if k > 0 {
      ReplayRecords(perm, children, sweets, k - 1);
      var r := Replay(perm, children, sweets, k - 1);
      if r.Ok? {
        StepRecords(perm, children, sweets, k - 1, r.value);
      }
    }
  }

  /** The replay of k steps succeeds exactly when each of them is allowed. */
  lemma {:induction false} ReplayAccepts(perm: seq<(int, int)>, children: seq<Point>, sweets: seq<Point>, k: nat)
    requires k <= |perm| && |sweets| == |children| + 1
    ensures Replay(perm, children, sweets, k).Ok? <==> forall j | 0 <= j < k :: GoodStep(perm, children, sweets, j)
  {
    if k > 0 {
      ReplayAccepts(perm, children, sweets, k - 1);
      var r := Replay(perm, children, sweets, k - 1);
      if r.Ok? {
        ReplayRecords(perm, children, sweets, k - 1);
        StepRecords(perm, children, sweets, k - 1, r.value);
        assert Replay(perm, children, sweets, k) == Step(perm[k - 1], children, sweets, r.value);
      } else {
        var j :| 0 <= j < k - 1 && !GoodStep(perm, children, sweets, j);
      }
    }
  }

  /** The judge finds no error in an order exactly when every step of it is allowed. */
  lemma CheckIsCorrectAccepts(perm: seq<(int, int)>, children: seq<Point>, sweets: seq<Point>)
    requires |sweets| == |children| + 1
    ensures CheckIsCorrect(perm, children, sweets) == "" <==> ValidOrder(perm, children, sweets)
  {
    ReplayAccepts(perm, children, sweets, |perm|);
  }

  /**
   * A case is accepted exactly when both orders are valid and the two
   * answers agree on the possibility token; an attempt claiming POSSIBLE
   * against a judge's different token is laid at the judge's door.
   */
  lemma JudgeCaseAccepts(children: seq<Point>, sweets: seq<Point>, judge: CaseOutput, attempt: CaseOutput)
    requires |sweets| == |children| + 1
    ensures JudgeCase(children, sweets, judge, attempt) == Correct <==>
      && ValidOrder(judge.permutation, children, sweets)
      && ValidOrder(attempt.permutation, children, sweets)
      && judge.possibility == attempt.possibility
    ensures JudgeCase(children, sweets, judge, attempt).JudgeError? <==>
      || !ValidOrder(judge.permutation, children, sweets)
      || (ValidOrder(attempt.permutation, children, sweets)
          && judge.possibility != attempt.possibility && attempt.possibility == "possible")
  {
    CheckIsCorrectAccepts(judge.permutation, children, sweets);
    CheckIsCorrectAccepts(attempt.permutation, children, sweets);
  }

  // ---------------------------------------------------------------------
  // The judge
  // ---------------------------------------------------------------------

  /** A successful replay goes one step further through Step. */
  lemma ReplayStep(perm: seq<(int, int)>, children: seq<Point>, sweets: seq<Point>, k: nat, f: Flags)
    requires k < |perm| && |sweets| == |children| + 1 && Replay(perm, children, sweets, k) == Ok(f)
    ensures Replay(perm, children, sweets, k + 1) == Step(perm[k], children, sweets, f)
  {
  }

  /** Once a step fails, later steps do not change the error. */
  lemma {:induction false} ReplayErrStays(perm: seq<(int, int)>, children: seq<Point>, sweets: seq<Point>, k: nat, m: nat)
    requires k <= m <= |perm| && |sweets| == |children| + 1 && Replay(perm, children, sweets, k).Err?
    ensures Replay(perm, children, sweets, m) == Replay(perm, children, sweets, k)
    decreases m - k
  {
    if k < m {
      ReplayErrStays(perm, children, sweets, k, m - 1);
    }
  }

  /**
   * One pass of the judge's loop: the checks on one (child, sweet) pair,
   * then the flags set and the free sweets scanned for a closer one.
   */
  method GiveSweet(p: (int, int), children: seq<Point>, sweets: seq<Point>, given: array<bool>, taken: array<bool>)
    returns (refusal: Option<Refusal>)
    requires given.Length == |children| && taken.Length == |sweets| == |children| + 1
    modifies given, taken
    ensures refusal.Some? ==> Step(p, children, sweets, old(Flags(given[..], taken[..]))) == Err(refusal.value)
    ensures refusal.None? ==> Step(p, children, sweets, old(Flags(given[..], taken[..]))) == Ok(Flags(given[..], taken[..]))
  {
    var (a, b) := p;
    var n := |children|;
    if a < 1 || a > n {
      return Some(ChildOutOfRange(a, n));
    }
    if given[a - 1] {
      return Some(ChildRepeated(a));
    }
    if b == 1 {
      return Some(ForbiddenSweet(a));
    }
    if b < 2 || b > n + 1 {
      return Some(SweetOutOfRange(b, n + 1));
    }
    if taken[b - 1] {
      return Some(SweetEaten(b));
    }
    ghost var before := Flags(given[..], taken[..]);
    given[a - 1] := true;
    taken[b - 1] := true;
    assert given[..] == before.given[a - 1 := true] && taken[..] == before.taken[b - 1 := true];
    var d0 := Dist2(children[a - 1], sweets[b - 1]);
    for i := 1 to n + 2
      invariant Closer(children[a - 1], sweets, taken[..], d0, 1) == Closer(children[a - 1], sweets, taken[..], d0, i)
    {
      var d1 := Dist2(children[a - 1], sweets[i - 1]);
      if !taken[i - 1] && d1 < d0 {
        return Some(NotClosest(a, b, d0, i, d1));
      }
    }
    return None;
  }

  /** The judge's checkIsCorrect, replaying the order on two arrays of flags. */
  method CheckOrder(permutation: seq<(int, int)>, children: seq<Point>, sweets: seq<Point>) returns (error: string)
    requires |sweets| == |children| + 1
    ensures error == CheckIsCorrect(permutation, children, sweets)
  {
    var taken := new bool[|sweets|](_ => false);
    var given := new bool[|children|](_ => false);
    assert given[..] == seq(|children|, _ => false) && taken[..] == seq(|sweets|, _ => false);
    for k := 0 to |permutation|
      invariant Replay(permutation, children, sweets, k) == Ok(Flags(given[..], taken[..]))
    {
      ReplayStep(permutation, children, sweets, k, Flags(given[..], taken[..]));
      var refusal := GiveSweet(permutation[k], children, sweets, given, taken);
      if refusal.Some? {
        ReplayErrStays(permutation, children, sweets, k + 1, |permutation|);
        return Message(refusal.value);
      }
    }
    return "";
  }
}
