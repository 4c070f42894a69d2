/**
 * The X Marks the Spot judge (Code Jam 2013, world finals).  The input is 4N
 * lattice points; an answer names two points A and B with decimal
 * coordinates.  The X is the line through A and B together with its
 * perpendicular through A, and it must leave exactly N points in each of its
 * four open quadrants.  Coordinates are compared exactly, as integers scaled
 * by 10^9.
 */
module XMarksTheSpot {
  import opened Wrappers
  import opened JudgeUtils

  const MaxPrecision: nat := 9
  const Scale: int := 1_000_000_000
  const MaxCoordinate: int := 1_000_000_000_000_000_000

  type Point = (int, int)

  function NotParse(s: string): string
  {
    "Number does not parse: " + s
  }

  function TooPrecise(s: string): string
  {
    "Too many digits of precision in " + s
  }

  function OutOfRange(s: string): string
  {
    "Out of range: " + s
  }

  function OnTheX(p: Point): string
  {
    PairStr(p.0, p.1) + " lies on the X"
  }

  function WrongLineCount(n: int): string
  {
    "Expected 1 line, got " + Decimal(n) + " lines"
  }

  function WrongTokenCount(n: int): string
  {
    "Expected 4 tokens, got " + Decimal(n) + " tokens"
  }

  const PointsCoincide := "Output points coincide"

  function UnequalSplit(qc: int, n: int): string
  {
    "Unequal split: " + Decimal(qc) + " out of " + Decimal(n)
  }

  lemma ScaleIsPow10()
    ensures Scale == Pow10(9)
  {
  }

  // ---------------------------------------------------------------------
  // Vectors
  // ---------------------------------------------------------------------

  function Plus(p: Point, q: Point): Point
  {
    (p.0 + q.0, p.1 + q.1)
  }

  function Minus(p: Point, q: Point): Point
  {
    (p.0 - q.0, p.1 - q.1)
  }

  function CrossProduct(p: Point, q: Point): int
  {
    p.0 * q.1 - p.1 * q.0
  }

  /** The vector turned a quarter turn counter-clockwise. */
  function Rotate90(p: Point): (r: Point)
    ensures CrossProduct(p, r) == p.0 * p.0 + p.1 * p.1
  {
    (-p.1, p.0)
  }

  // ---------------------------------------------------------------------
  // Quadrant
  // ---------------------------------------------------------------------

  /**
   * The quadrant of p for the X centred at a with arms through b and c:
   * bit 1 is set on the negative side of the line ab, bit 0 on the negative
   * side of the line ac.  A point on either line is an error.
   */
  function Quadrant(p: Point, a: Point, b: Point, c: Point): (r: Result<int, string>)
    ensures r.Err? <==> CrossProduct(Minus(b, a), Minus(p, a)) == 0 || CrossProduct(Minus(c, a), Minus(p, a)) == 0
    ensures r.Err? ==> r.error == OnTheX(p)
    ensures r.Ok? ==> 0 <= r.value <= 3
  {
    var cp1 := CrossProduct(Minus(b, a), Minus(p, a));
    var cp2 := CrossProduct(Minus(c, a), Minus(p, a));
    if cp1 == 0 || cp2 == 0 then Err(OnTheX(p))
    else Ok(2 * (if cp1 < 0 then 1 else 0) + (if cp2 < 0 then 1 else 0))
  }

  /** The quadrant's high bit is the side of the line ab, its low bit the side of the line ac. */
  lemma QuadrantSides(p: Point, a: Point, b: Point, c: Point)
    requires Quadrant(p, a, b, c).Ok?
    ensures Quadrant(p, a, b, c).value >= 2 <==> CrossProduct(Minus(b, a), Minus(p, a)) < 0
    ensures Quadrant(p, a, b, c).value % 2 == 1 <==> CrossProduct(Minus(c, a), Minus(p, a)) < 0
  {
  }

  /** Two points off the X share a quadrant exactly when they lie on the same side of both lines. */
  lemma SameQuadrant(p: Point, q: Point, a: Point, b: Point, c: Point)
    requires Quadrant(p, a, b, c).Ok? && Quadrant(q, a, b, c).Ok?
    ensures Quadrant(p, a, b, c) == Quadrant(q, a, b, c) <==>
      (CrossProduct(Minus(b, a), Minus(p, a)) < 0 <==> CrossProduct(Minus(b, a), Minus(q, a)) < 0) &&
      (CrossProduct(Minus(c, a), Minus(p, a)) < 0 <==> CrossProduct(Minus(c, a), Minus(q, a)) < 0)
  {
    QuadrantSides(p, a, b, c);
    QuadrantSides(q, a, b, c);
  }

  // ---------------------------------------------------------------------
  // ParseFixedPoint
  // ---------------------------------------------------------------------

  /** How many decimal digits s starts with. */
  function DigitRun(s: string): (k: nat)
    ensures k <= |s| && (forall i | 0 <= i < k :: IsDigit(s[i])) && (k < |s| ==> !IsDigit(s[k]))
  {
    if s == [] || !IsDigit(s[0]) then 0 else 1 + DigitRun(s[1..])
  }

  /** The pieces the judge's pattern `^(-)?(\d*)(\.(\d*))?$` captures: the sign, the digits before the point, the digits after it. */
  datatype Captures = Captures(minus: bool, integral: string, fractional: Option<string>)

  /** The pattern match: None when the token does not have that shape. */
  function Match(s: string): (m: Option<Captures>)
    ensures m.Some? ==> AllDigits(m.value.integral)
    ensures m.Some? && m.value.fractional.Some? ==> AllDigits(m.value.fractional.value)
  {
    var minus := |s| >= 1 && s[0] == '-';
    MatchUnsigned(minus, if minus then s[1..] else s)
  }

  /** The match of what follows the optional sign. */
  function MatchUnsigned(minus: bool, rest: string): (m: Option<Captures>)
    ensures m.Some? ==> AllDigits(m.value.integral)
    ensures m.Some? && m.value.fractional.Some? ==> AllDigits(m.value.fractional.value)
  {
    var k := DigitRun(rest);
    AllDigitsIff(rest[..k]);
    AllDigitsIff(rest);
    if k == |rest| then
      Some(Captures(minus, rest, None))
    else if rest[k] == '.' && AllDigits(rest[k + 1..]) then
      Some(Captures(minus, rest[..k], Some(rest[k + 1..])))
    else
      None
  }

  /**
   * The judge's ParseFixedPoint: the token's value times 10^9, exactly, or an
   * error for a token of the wrong shape, one with more than nine digits
   * after the point, or one beyond 10^9 in magnitude.
   */
  function ParseFixedPoint(s: string): (r: Result<int, string>)
    ensures r.Ok? ==> -MaxCoordinate <= r.value <= MaxCoordinate
  {
    match Match(s)
    case None => Err(NotParse(s))
    case Some(c) => ScaleCaptures(s, c)
  }

  /** The value of a token the pattern matched, from its captured pieces. */
  function ScaleCaptures(s: string, c: Captures): (r: Result<int, string>)
    requires AllDigits(c.integral) && (c.fractional.Some? ==> AllDigits(c.fractional.value))
    ensures r.Ok? ==> -MaxCoordinate <= r.value <= MaxCoordinate
  {
    var f := if c.fractional.Some? then c.fractional.value else "";
    if c.integral == "" && f == "" then Err(NotParse(s))
    else
      var i := if c.integral == "" then "0" else c.integral;
      if |f| > MaxPrecision then Err(TooPrecise(s))
      else
        DigitsConcat(f, Zeros(MaxPrecision - |f|));
        Signed(s, c.minus, DigitsValue(i) * Scale + DigitsValue(f + Zeros(MaxPrecision - |f|)))
  }

  /** The range check on the magnitude, then the sign applied. */
  function Signed(s: string, minus: bool, value: nat): (r: Result<int, string>)
    ensures r.Ok? ==> -MaxCoordinate <= r.value <= MaxCoordinate
  {
    if value > MaxCoordinate then Err(OutOfRange(s))
    else Ok(if minus then -(value as int) else value)
  }

  /** The digits after the point, padded with zeros to nine, are the fraction scaled by 10^9. */
  lemma PaddedFraction(f: string)
    requires AllDigits(f) && |f| <= MaxPrecision
    ensures AllDigits(f + Zeros(MaxPrecision - |f|))
    ensures DigitsValue(f + Zeros(MaxPrecision - |f|)) == DigitsValue(f) * Pow10(MaxPrecision - |f|)
  {
    PadRight(f, MaxPrecision - |f|);
  }

  /** Zeros appended to a numeral multiply its value by a power of ten. */
  lemma PadRight(f: string, k: nat)
    requires AllDigits(f)
    ensures AllDigits(f + Zeros(k)) && DigitsValue(f + Zeros(k)) == DigitsValue(f) * Pow10(k)
  {
    DigitsConcat(f, Zeros(k));
    ZerosValue(k);
  }

  /** The decimal written with an optional '-', integer digits i, a point and fraction digits f. */
  function Written(minus: bool, i: string, f: string): string
  {
    (if minus then "-" else "") + i + "." + f
  }

  /** The pattern splits a written decimal back into its sign and its two digit strings. */
  lemma MatchWritten(minus: bool, i: string, f: string)
    requires AllDigits(i) && AllDigits(f)
    ensures Match(Written(minus, i, f)) == Some(Captures(minus, i, Some(f)))
  {
    WrittenParts(minus, i, f);
    MatchPoint(minus, i, f);
    if minus {
      SignedMatch(i + "." + f);
    } else {
      PointedStart(i, f);
      UnsignedMatch(i + "." + f);
    }
  }

  /** A written decimal is its sign followed by the digits and the point. */
  lemma WrittenParts(minus: bool, i: string, f: string)
    ensures Written(minus, i, f) == if minus then "-" + (i + "." + f) else i + "." + f
  {
  }

  /** A written decimal without its sign starts with a digit or the point. */
  lemma PointedStart(i: string, f: string)
    requires AllDigits(i)
    ensures (i + "." + f)[0] != '-'
  {
    AllDigitsIff(i);
    if i != [] {
      assert (i + "." + f)[0] == i[0];
    }
  }

  /** A leading '-' is the sign. */
  lemma SignedMatch(rest: string)
    ensures Match("-" + rest) == MatchUnsigned(true, rest)
  {
    assert ("-" + rest)[1..] == rest;
  }

  /** Without a leading '-' the whole token follows the sign. */
  lemma UnsignedMatch(rest: string)
    requires rest != [] && rest[0] != '-'
    ensures Match(rest) == MatchUnsigned(false, rest)
  {
  }

  /** After the sign, the digit run stops at the point. */
  lemma MatchPoint(minus: bool, i: string, f: string)
    requires AllDigits(i) && AllDigits(f)
    ensures MatchUnsigned(minus, i + "." + f) == Some(Captures(minus, i, Some(f)))
  {
    var rest := i + "." + f;
    AllDigitsIff(i);
    assert rest[|i|] == '.';
    assert forall j | 0 <= j < |i| :: rest[j] == i[j];
    DigitRunStops(rest, |i|);
    assert rest[..|i|] == i && rest[|i| + 1..] == f;
  }

  /** The digit run ends at the first character that is not a digit. */
  lemma DigitRunStops(s: string, k: nat)
    requires k < |s| && !IsDigit(s[k]) && forall j | 0 <= j < k :: IsDigit(s[j])
    ensures DigitRun(s) == k
  {
  }

  /** The value, scaled by 10^9, of the digits i before the point and f after it. */
  function FixedValue(i: string, f: string): nat
    requires AllDigits(i) && AllDigits(f) && |f| <= MaxPrecision
  {
    DigitsValue(i) * Scale + DigitsValue(f) * Pow10(MaxPrecision - |f|)
  }

  /**
   * A decimal with at most nine digits after the point parses to its value
   * times 10^9, or to the range error when that exceeds 10^18.
   */
  lemma FixedPointValue(minus: bool, i: string, f: string)
    requires AllDigits(i) && AllDigits(f) && (i != "" || f != "") && |f| <= MaxPrecision
    ensures ParseFixedPoint(Written(minus, i, f)) ==
      if FixedValue(i, f) > MaxCoordinate then Err(OutOfRange(Written(minus, i, f)))
      else Ok(if minus then -(FixedValue(i, f) as int) else FixedValue(i, f))
  {
    var s := Written(minus, i, f);
    MatchWritten(minus, i, f);
    assert ParseFixedPoint(s) == ScaleCaptures(s, Captures(minus, i, Some(f)));
    CapturedValue(s, minus, i, f);
  }

  /** The captured pieces of a decimal with at most nine digits after the point give its scaled value. */
  lemma CapturedValue(s: string, minus: bool, i: string, f: string)
    requires AllDigits(i) && AllDigits(f) && (i != "" || f != "") && |f| <= MaxPrecision
    ensures ScaleCaptures(s, Captures(minus, i, Some(f))) == Signed(s, minus, FixedValue(i, f))
  {
    PaddedFraction(f);
    ZeroValue();
  }

  lemma ZeroValue()
    ensures AllDigits("0") && DigitsValue("0") == 0
  {
    assert "0"[..0] == "";
  }

  /** More than nine digits after the point are refused. */
  lemma TooManyDigits(minus: bool, i: string, f: string)
    requires AllDigits(i) && AllDigits(f) && |f| > MaxPrecision
    ensures ParseFixedPoint(Written(minus, i, f)) == Err(TooPrecise(Written(minus, i, f)))
  {
    MatchWritten(minus, i, f);
  }

  /** A token without any digit, such as "-", "." or "-.", is refused. */
  lemma NoDigits(minus: bool)
    ensures ParseFixedPoint(Written(minus, "", "")) == Err(NotParse(Written(minus, "", "")))
    ensures ParseFixedPoint(if minus then "-" else "") == Err(NotParse(if minus then "-" else ""))
  {
    MatchWritten(minus, "", "");
  }

  /** The canonical nine-decimal rendering of a scaled value. */
  function Render(v: int): string
  {
    var m: nat := if v < 0 then -v else v;
    Written(v < 0, NatDigits(m / Scale), NineDigits(m % Scale))
  }

  /** A value below 10^9 written with exactly nine digits. */
  function NineDigits(n: nat): (d: string)
    requires n < Scale
    ensures |d| == MaxPrecision && AllDigits(d) && DigitsValue(d) == n
  {
    var d := NatDigits(n);
    FractionDigits(n);
    LeadingZeros(9 - |d|, d);
    Zeros(9 - |d|) + d
  }

  /** A value's nine digits after the point. */
  lemma FractionDigits(n: nat)
    requires n < Scale
    ensures |NatDigits(n)| <= 9
  {
    var d := NatDigits(n);
    if |d| > 9 {
      NoLeadingZeroValue(d);
      Pow10Monotone(9, |d| - 1);
    }
  }

  /** Every scaled value within range is read back from its rendering. */
  lemma ParseRender(v: int)
    requires -MaxCoordinate <= v <= MaxCoordinate
    ensures ParseFixedPoint(Render(v)) == Ok(v)
  {
    var m: nat := if v < 0 then -v else v;
    var i := NatDigits(m / Scale);
    var f := NineDigits(m % Scale);
    RenderedValue(m);
    FixedPointValue(v < 0, i, f);
  }

  /** The two parts of the rendering add back up to the magnitude. */
  lemma RenderedValue(m: nat)
    ensures FixedValue(NatDigits(m / Scale), NineDigits(m % Scale)) == m
  {
    assert Pow10(0) == 1;
  }

  // ---------------------------------------------------------------------
  // JudgeCase
  // ---------------------------------------------------------------------

  /** The four tokens read in order; the first that fails stops the judge. */
  function ReadCoords(tokens: seq<string>): (r: Result<seq<int>, string>)
    ensures r.Ok? ==> |r.value| == |tokens|
  {
    if tokens == [] then Ok([])
    else match ReadCoords(tokens[..|tokens| - 1])
      case Err(e) => Err(e)
      case Ok(cs) =>
        match ParseFixedPoint(tokens[|tokens| - 1])
        case Err(e) => Err(e)
        case Ok(v) => Ok(cs + [v])
  }

  /** The input points in the judge's scaled coordinates. */
  function Scaled(testCase: seq<Point>): (ps: seq<Point>)
    ensures |ps| == |testCase|
  {
    seq(|testCase|, i requires 0 <= i < |testCase| => (testCase[i].0 * Scale, testCase[i].1 * Scale))
  }

  /** The second arm of the X: b - a turned a quarter turn, from a. */
  function Corner(a: Point, b: Point): Point
  {
    Plus(a, Rotate90(Minus(b, a)))
  }

  /** Each point's quadrant, or the error for a point on the X. */
  function Quadrants(points: seq<Point>, a: Point, b: Point, c: Point): (rs: seq<Result<int, string>>)
    ensures |rs| == |points| && Labels(rs)
  {
    seq(|points|, i requires 0 <= i < |points| => Quadrant(points[i], a, b, c))
  }

  /** Every quadrant found is one of the four. */
  predicate Labels(rs: seq<Result<int, string>>)
  {
    forall i | 0 <= i < |rs| :: rs[i].Ok? ==> 0 <= rs[i].value < 4
  }

  /** The quadrant counts after the first k points, or the first point found on the X. */
  function Tally(rs: seq<Result<int, string>>, k: nat): (r: Result<seq<int>, string>)
    requires k <= |rs| && Labels(rs)
    ensures r.Ok? ==> |r.value| == 4
  {
    if k == 0 then Ok([0, 0, 0, 0])
    else match Tally(rs, k - 1)
      case Err(e) => Err(e)
      case Ok(counts) =>
        match rs[k - 1]
        case Err(e) => Err(e)
        case Ok(q) => Ok(counts[q := counts[q] + 1])
  }

  /** The first quadrant count, from quadrant i on, that is not a quarter of the n points. */
  function FirstUnequal(counts: seq<int>, n: int, i: nat): (r: Option<string>)
    requires i <= |counts|
    ensures r == None <==> forall q | i <= q < |counts| :: 4 * counts[q] == n
    decreases |counts| - i
  {
    if i == |counts| then None
    else if 4 * counts[i] != n then Some(UnequalSplit(counts[i], n))
    else FirstUnequal(counts, n, i + 1)
  }

  /** The judge's verdict on one case: None for a correct X, otherwise the reason. */
  function Verdict(testCase: seq<Point>, attempt: seq<seq<string>>): Option<string>
  {
    if |attempt| != 1 then Some(WrongLineCount(|attempt|))
    else if |attempt[0]| != 4 then Some(WrongTokenCount(|attempt[0]|))
    else match ReadCoords(attempt[0])
      case Err(e) => Some(e)
      case Ok(cs) =>
        var a := (cs[0], cs[1]);
        var b := (cs[2], cs[3]);
        if a == b then Some(PointsCoincide)
        else
          var rs := Quadrants(Scaled(testCase), a, b, Corner(a, b));
          match Tally(rs, |rs|)
          case Err(e) => Some(e)
          case Ok(counts) => FirstUnequal(counts, |rs|, 0)
  }

  /** The judge's JudgeCase: one pass over the points counting quadrants, then the four counts checked. */
  method JudgeCase(testCase: seq<Point>, attempt: seq<seq<string>>) returns (error: Option<string>)
    ensures error == Verdict(testCase, attempt)
  {
    if |attempt| != 1 {
      return Some(WrongLineCount(|attempt|));
    }
    if |attempt[0]| != 4 {
      return Some(WrongTokenCount(|attempt[0]|));
    }
    var coords := ReadCoords(attempt[0]);
    if coords.Err? {
      return Some(coords.error);
    }
    var cs := coords.value;
    var points := Scaled(testCase);
    var a := (cs[0], cs[1]);
    var b := (cs[2], cs[3]);
    if a == b {
      return Some(PointsCoincide);
    }
    var c := Plus(a, Rotate90(Minus(b, a)));
    var tally := CountQuadrants(points, a, b, c);
    if tally.Err? {
      return Some(tally.error);
    }
    var counts := tally.value;
    var i := 0;
    while i < 4
      invariant 0 <= i <= 4
      invariant FirstUnequal(counts, |points|, 0) == FirstUnequal(counts, |points|, i)
    {
      if 4 * counts[i] != |points| {
        return Some(UnequalSplit(counts[i], |points|));
      }
      i := i + 1;
    }
    return None;
  }

  /** The judge's counting loop: each point's quadrant counted, the first point on the X stopping it. */
  method CountQuadrants(points: seq<Point>, a: Point, b: Point, c: Point) returns (r: Result<seq<int>, string>)
    ensures r == Tally(Quadrants(points, a, b, c), |points|)
  {
    ghost var rs := Quadrants(points, a, b, c);
    var counts := [0, 0, 0, 0];
    var k := 0;
    while k < |points|
      invariant 0 <= k <= |points|
      invariant Tally(rs, k) == Ok(counts)
    {
      var q := Quadrant(points[k], a, b, c);
      QuadrantAt(points, a, b, c, k);
      if q.Err? {
        TallyErrStays(rs, k + 1, |points|);
        return Err(q.error);
      }
      counts := counts[q.value := counts[q.value] + 1];
      k := k + 1;
    }
    return Ok(counts);
  }

  lemma QuadrantAt(points: seq<Point>, a: Point, b: Point, c: Point, k: nat)
    requires k < |points|
    ensures Quadrants(points, a, b, c)[k] == Quadrant(points[k], a, b, c)
  {
  }

  /** Once a point is found on the X, the tally stays at that error. */
  lemma {:induction false} TallyErrStays(rs: seq<Result<int, string>>, j: nat, k: nat)
    requires j <= k <= |rs| && Labels(rs) && Tally(rs, j).Err?
    ensures Tally(rs, k) == Tally(rs, j)
    decreases k
  {
    if k > j {
      TallyErrStays(rs, j, k - 1);
    }
  }

  /** How many of the first k points lie in quadrant q. */
  function NumIn(rs: seq<Result<int, string>>, q: int, k: nat): nat
    requires k <= |rs|
  {
    if k == 0 then 0
    else NumIn(rs, q, k - 1) + (if rs[k - 1] == Ok(q) then 1 else 0)
  }

  /** How many of the points lie in quadrant q. */
  function Quarter(rs: seq<Result<int, string>>, q: int): nat
  {
    NumIn(rs, q, |rs|)
  }

  /** The tally succeeds exactly when no point lies on the X, and then counts each quadrant's points. */
  lemma {:induction false} TallyCounts(rs: seq<Result<int, string>>, k: nat)
    requires k <= |rs| && Labels(rs)
    ensures Tally(rs, k).Ok? <==> forall i | 0 <= i < k :: rs[i].Ok?
    ensures Tally(rs, k).Ok? ==> forall q | 0 <= q < 4 :: Tally(rs, k).value[q] == NumIn(rs, q, k)
  {
    if k > 0 {
      TallyCounts(rs, k - 1);
      var t := Tally(rs, k - 1);
      if t.Ok? && rs[k - 1].Ok? {
        var p := rs[k - 1].value;
        var counts := t.value[p := t.value[p] + 1];
        forall q | 0 <= q < 4
          ensures counts[q] == NumIn(rs, q, k)
        {
          assert t.value[q] == NumIn(rs, q, k - 1);
        }
      }
    }
  }

  /**
   * An answer is accepted exactly when it is one line of four numbers naming
   * two different points, no input point lies on the X they define, and
   * each quadrant holds a quarter of the points.
   */
  lemma VerdictAccepts(testCase: seq<Point>, attempt: seq<seq<string>>)
    ensures Verdict(testCase, attempt) == None <==>
      && |attempt| == 1 && |attempt[0]| == 4
      && ReadCoords(attempt[0]).Ok?
      && var cs := ReadCoords(attempt[0]).value;
         var a := (cs[0], cs[1]);
         var b := (cs[2], cs[3]);
         var points := Scaled(testCase);
         && a != b
         && (forall i | 0 <= i < |points| :: Quadrant(points[i], a, b, Corner(a, b)).Ok?)
         && forall q | 0 <= q < 4 :: 4 * Quarter(Quadrants(points, a, b, Corner(a, b)), q) == |points|
  {
    if |attempt| == 1 && |attempt[0]| == 4 && ReadCoords(attempt[0]).Ok? {
      var cs := ReadCoords(attempt[0]).value;
      var a := (cs[0], cs[1]);
      var b := (cs[2], cs[3]);
      var points := Scaled(testCase);
      if a != b {
        var rs := Quadrants(points, a, b, Corner(a, b));
        SplitAccepts(rs);
        NoneOnTheX(points, a, b, Corner(a, b));
      }
    }
  }

  /** No quadrant is an error exactly when no point lies on the X. */
  lemma NoneOnTheX(points: seq<Point>, a: Point, b: Point, c: Point)
    ensures (forall i | 0 <= i < |points| :: Quadrants(points, a, b, c)[i].Ok?) <==>
      forall i | 0 <= i < |points| :: Quadrant(points[i], a, b, c).Ok?
  {
    var rs := Quadrants(points, a, b, c);
    forall i | 0 <= i < |points|
      ensures rs[i] == Quadrant(points[i], a, b, c)
    {
    }
  }

  /** The counting pass accepts exactly when no point lies on the X and every quadrant holds a quarter of the points. */
  lemma SplitAccepts(rs: seq<Result<int, string>>)
    requires Labels(rs)
    ensures Tally(rs, |rs|).Ok? && FirstUnequal(Tally(rs, |rs|).value, |rs|, 0) == None <==>
      && (forall i | 0 <= i < |rs| :: rs[i].Ok?)
      && forall q | 0 <= q < 4 :: 4 * Quarter(rs, q) == |rs|
  {
    TallyCounts(rs, |rs|);
    var t := Tally(rs, |rs|);
    if t.Ok? {
      forall q | 0 <= q < 4
        ensures t.value[q] == Quarter(rs, q)
      {
      }
      QuartersAgree(t.value, rs);
    }
  }

  lemma QuartersAgree(counts: seq<int>, rs: seq<Result<int, string>>)
    requires |counts| == 4 && forall q | 0 <= q < 4 :: counts[q] == Quarter(rs, q)
    ensures (forall q | 0 <= q < 4 :: 4 * counts[q] == |rs|) <==>
      forall q | 0 <= q < 4 :: 4 * Quarter(rs, q) == |rs|
  {
  }
}
