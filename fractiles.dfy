/**
 * The Fractiles judge (Code Jam 2016, qualification round).  An original
 * pattern of K tiles is blown up C times into a fractal of K^C tiles; tile n
 * of the result (counting from 1) depends on the original tiles named by the
 * C lowest base-K digits of n - 1.  The contestant names at most S tiles to
 * clean, and these must together depend on every original tile, or the
 * answer is IMPOSSIBLE, which is right exactly when S * C < K.
 */
module Fractiles {
  import opened Wrappers
  import opened JudgeUtils

  const EmptyLine := "Empty line after case #"
  const Inconclusive := "Cannot know whether original pattern has gold"

  function InvalidNumTiles(count: int, s: int): string
  {
    "Invalid number of tiles restored: " + Decimal(count) + ", should be between 1 and " + Decimal(s) + "."
  }

  function InvalidTileNumber(token: string, top: int): string
  {
    "Invalid tile number: " + token + ", should be between 1 and " + Decimal(top) + "."
  }

  function RepeatedTile(tile: int): string
  {
    "Tile occurs more than once: " + Decimal(tile) + "."
  }

  function WrongNumLines(count: int): string
  {
    "Wrong number of lines of output: " + Decimal(count) + ", expected 1."
  }

  /** A test case: the pattern length K, the complexity C and the number S of tiles to clean. */
  datatype Case = Case(k: int, c: nat, s: int)

  function Pow(b: int, e: nat): int
  {
    if e == 0 then 1 else b * Pow(b, e - 1)
  }

  // ---------------------------------------------------------------------
  // Which original tiles a tile depends on
  // ---------------------------------------------------------------------

  /**
   * The original tiles (counting from 1) that the zero-based tile m depends
   * on after c rounds: one for each of m's c lowest digits in base k.
   */
  function Influence(m: int, k: int, c: nat): (r: set<int>)
    requires k >= 1
    ensures |r| <= c
    ensures forall i | i in r :: 1 <= i <= k
    decreases c
  {
    if c == 0 then {}
    else
      var rest := Influence(m / k, k, c - 1);
      assert 0 <= m % k < k;
      AddCard(m % k + 1, rest);
      {m % k + 1} + rest
  }

  lemma AddCard(x: int, s: set<int>)
    ensures |{x} + s| <= |s| + 1
  {
    if x in s {
      assert {x} + s == s;
    }
  }

  /** The original tiles that tile t (counting from 1) depends on. */
  function Depends(t: int, k: int, c: nat): set<int>
    requires k >= 1
  {
    Influence(t - 1, k, c)
  }

  /** The source's TileInfluence: the digits of n - 1 are peeled off from the lowest. */
  method TileInfluence(n: int, k: int, c: nat) returns (influence: set<int>)
    requires k >= 1
    ensures influence == Influence(n - 1, k, c)
  {
    var m := n - 1;
    influence := {};
    for j := 0 to c
      invariant influence + Influence(m, k, c - j) == Influence(n - 1, k, c)
    {
      influence := influence + {m % k + 1};
      m := m / k;
    }
  }

  /** The original tiles that a set of cleaned tiles depends on together. */
  function Covered(tiles: set<int>, k: int, c: nat): set<int>
    requires k >= 1
  {
    set t, i | t in tiles && i in Depends(t, k, c) :: i
  }

  /** The source's CheckCorrectness on parsed tiles; the empty set stands for IMPOSSIBLE. */
  predicate Correct(cs: Case, tiles: set<int>)
    requires cs.k >= 1
  {
    if tiles == {} then cs.s * cs.c < cs.k
    else if |tiles| > cs.s then false
    else |Covered(tiles, cs.k, cs.c)| == cs.k
  }

  /** The source's CheckCorrectness, which gathers the influences tile by tile. */
  method CheckCorrectness(cs: Case, tiles: set<int>) returns (ok: bool)
    requires cs.k >= 1
    ensures ok == Correct(cs, tiles)
  {
    if tiles == {} {
      return cs.s * cs.c < cs.k;
    }
    if |tiles| > cs.s {
      return false;
    }
    var indices: set<int> := {};
    var left := tiles;
    while left != {}
      invariant left <= tiles
      invariant indices + Covered(left, cs.k, cs.c) == Covered(tiles, cs.k, cs.c)
      decreases |left|
    {
      SomeTile(left);
      var t :| t in left;
      var influence := TileInfluence(t, cs.k, cs.c);
      CoveredSplit(left, t, cs.k, cs.c);
      indices := indices + influence;
      left := left - {t};
    }
    return |indices| == cs.k;
  }

  /** The original tiles 1..k. */
  function Originals(k: int): (r: set<int>)
    ensures forall i | i in r :: 1 <= i <= k
    ensures k >= 0 ==> |r| == k
  {
    if k <= 0 then {} else Originals(k - 1) + {k}
  }

  lemma {:induction false} InOriginals(i: int, k: int)
    requires 1 <= i <= k
    ensures i in Originals(k)
  {
    if i < k {
      InOriginals(i, k - 1);
    }
  }

  lemma SomeTile(tiles: set<int>)
    requires tiles != {}
    ensures exists t :: t in tiles
  {
    if forall t :: t !in tiles {
      assert false;
    }
  }

  lemma CoveredSplit(tiles: set<int>, t: int, k: int, c: nat)
    requires k >= 1 && t in tiles
    ensures Covered(tiles, k, c) == Depends(t, k, c) + Covered(tiles - {t}, k, c)
  {
  }

  /** A subset of the same size as the finite set it sits in is that set. */
  lemma SubsetCard(a: set<int>, b: set<int>)
    requires a <= b && |a| == |b|
    ensures a == b
  {
    assert |b - a| == |b| - |a|;
  }

  /**
   * A non-empty answer is right exactly when it names at most S tiles and
   * they depend on every original tile.
   */
  lemma CorrectCovers(cs: Case, tiles: set<int>)
    requires cs.k >= 1 && tiles != {}
    ensures Correct(cs, tiles) <==> |tiles| <= cs.s && Covered(tiles, cs.k, cs.c) == Originals(cs.k)
  {
    var cov := Covered(tiles, cs.k, cs.c);
    forall x | x in cov
      ensures x in Originals(cs.k)
    {
      var t :| t in tiles && x in Depends(t, cs.k, cs.c);
      InOriginals(x, cs.k);
    }
    if |cov| == cs.k {
      SubsetCard(cov, Originals(cs.k));
    }
  }

  /** Each tile depends on at most C originals, so a set of tiles on at most C times as many. */
  lemma {:induction false} CoveredBound(tiles: set<int>, k: int, c: nat)
    requires k >= 1
    ensures |Covered(tiles, k, c)| <= |tiles| * c
    decreases |tiles|
  {
    if tiles != {} {
      SomeTile(tiles);
      var t :| t in tiles;
      var rest := tiles - {t};
      CoveredSplit(tiles, t, k, c);
      CoveredBound(rest, k, c);
      UnionCard(Depends(t, k, c), Covered(rest, k, c));
      MulStep(|rest|, c, |tiles|);
    }
  }

  lemma UnionCard(a: set<int>, b: set<int>)
    ensures |a + b| <= |a| + |b|
  {
  }

  lemma MulStep(n: nat, c: nat, m: nat)
    requires m == n + 1
    ensures n * c + c == m * c
  {
  }

  /** With S * C < K, no set of at most S tiles can depend on every original tile. */
  lemma TooFewTiles(cs: Case, tiles: set<int>)
    requires cs.k >= 1 && cs.s * cs.c < cs.k && |tiles| <= cs.s
    ensures Covered(tiles, cs.k, cs.c) != Originals(cs.k)
  {
    CoveredBound(tiles, cs.k, cs.c);
    assert |tiles| * cs.c <= cs.s * cs.c by {
      MulMonotone(|tiles|, cs.s, cs.c);
    }
  }

  lemma MulMonotone(a: nat, b: nat, c: nat)
    requires a <= b
    ensures a * c <= b * c
  {
  }

  // ---------------------------------------------------------------------
  // Reading the answer
  // ---------------------------------------------------------------------

  /** Python's `int` on a tile token, where a token that is no integer counts as tile 0. */
  function TileValue(token: string): int
  {
    match PyInt(token)
    case Some(v) => v
    case None => 0
  }

  /** Tokens i and on, each a tile in 1..top not among the tiles read before it. */
  function ParseTiles(line: seq<string>, top: int, i: nat, tiles: set<int>): Result<set<int>, string>
    requires i <= |line|
    decreases |line| - i
  {
    if i == |line| then Ok(tiles)
    else
      var tile := TileValue(line[i]);
      if !(1 <= tile <= top) then Err(InvalidTileNumber(line[i], top))
      else if tile in tiles then Err(RepeatedTile(tile))
      else ParseTiles(line, top, i + 1, tiles + {tile})
  }

  /** The source's ParseAttempt: the tiles named, the empty set for IMPOSSIBLE, or an error. */
  function Parse(cs: Case, attempt: seq<seq<string>>): Result<set<int>, string>
  {
    if |attempt| != 1 then Err(WrongNumLines(|attempt|))
    else
      var line := attempt[0];
      if |line| < 1 then Err(EmptyLine)
      else if |line| == 1 && line[0] == "impossible" then Ok({})
      else if !(1 <= |line| <= cs.s) then Err(InvalidNumTiles(|line|, cs.s))
      else ParseTiles(line, Pow(cs.k, cs.c), 0, {})
  }

  /** The tile values of a line, in order. */
  function TileValues(line: seq<string>): (vs: seq<int>)
    ensures |vs| == |line| && forall j | 0 <= j < |line| :: vs[j] == TileValue(line[j])
  {
    seq(|line|, j requires 0 <= j < |line| => TileValue(line[j]))
  }

  /** The values from position i on, as a set. */
  function ValuesFrom(vs: seq<int>, i: nat): set<int>
  {
    set j | i <= j < |vs| :: vs[j]
  }

  /** No value from position i on occurs twice. */
  predicate DistinctFrom(vs: seq<int>, i: nat)
  {
    forall a, b | i <= a < b < |vs| :: vs[a] != vs[b]
  }

  /** Every value from position i on is a tile in 1..top that is not yet in tiles. */
  predicate FreshFrom(vs: seq<int>, i: nat, top: int, tiles: set<int>)
  {
    forall j | i <= j < |vs| :: 1 <= vs[j] <= top && vs[j] !in tiles
  }

  /** Position i is fresh and distinct from what follows exactly when it is a new tile and the rest is. */
  lemma FreshStep(vs: seq<int>, i: nat, top: int, tiles: set<int>)
    requires i < |vs|
    ensures FreshFrom(vs, i, top, tiles) && DistinctFrom(vs, i) <==>
      1 <= vs[i] <= top && vs[i] !in tiles && FreshFrom(vs, i + 1, top, tiles + {vs[i]}) && DistinctFrom(vs, i + 1)
  {
    var more := tiles + {vs[i]};
    if FreshFrom(vs, i + 1, top, more) && DistinctFrom(vs, i + 1) {
      assert forall j | i + 1 <= j < |vs| :: vs[j] != vs[i];
    }
    if FreshFrom(vs, i, top, tiles) && DistinctFrom(vs, i) {
      assert forall j | i + 1 <= j < |vs| :: vs[j] != vs[i];
    }
  }

  /**
   * Reading from token i on succeeds exactly when those tokens are distinct
   * tiles in 1..top, none already read; it then adds them to what was read.
   */
  lemma {:induction false} ParseTilesOk(line: seq<string>, top: int, i: nat, tiles: set<int>)
    requires i <= |line|
    ensures var vs := TileValues(line);
      ParseTiles(line, top, i, tiles).Ok? <==> FreshFrom(vs, i, top, tiles) && DistinctFrom(vs, i)
    ensures ParseTiles(line, top, i, tiles).Ok? ==>
      ParseTiles(line, top, i, tiles).value == tiles + ValuesFrom(TileValues(line), i)
    decreases |line| - i
  {
    var vs := TileValues(line);
    if i < |line| {
      var tile := vs[i];
      var more := tiles + {tile};
      ParseTilesOk(line, top, i + 1, more);
      FreshStep(vs, i, top, tiles);
      assert ValuesFrom(vs, i) == {tile} + ValuesFrom(vs, i + 1);
    }
  }

  /** The source's ParseAttempt, adding each tile to the set as it is read. */
  method ParseAttempt(cs: Case, attempt: seq<seq<string>>) returns (r: Result<set<int>, string>)
    ensures r == Parse(cs, attempt)
  {
    if |attempt| != 1 {
      return Err(WrongNumLines(|attempt|));
    }
    var line := attempt[0];
    if |line| < 1 {
      return Err(EmptyLine);
    }
    if |line| == 1 && line[0] == "impossible" {
      return Ok({});
    }
    if !(1 <= |line| <= cs.s) {
      return Err(InvalidNumTiles(|line|, cs.s));
    }
    var top := Pow(cs.k, cs.c);
    var tiles: set<int> := {};
    for i := 0 to |line|
      invariant ParseTiles(line, top, 0, {}) == ParseTiles(line, top, i, tiles)
    {
      var tile := TileValue(line[i]);
      if !(1 <= tile <= top) {
        return Err(InvalidTileNumber(line[i], top));
      }
      if tile in tiles {
        return Err(RepeatedTile(tile));
      }
      tiles := tiles + {tile};
    }
    return Ok(tiles);
  }

  // ---------------------------------------------------------------------
  // The verdict
  // ---------------------------------------------------------------------

  /** The judge's verdict on one case: None when the answer is accepted. */
  function Verdict(cs: Case, attempt: seq<seq<string>>): Option<string>
    requires cs.k >= 1
  {
    match Parse(cs, attempt)
    case Err(e) => Some(e)
    case Ok(tiles) => if Correct(cs, tiles) then None else Some(Inconclusive)
  }

  /** The source's VerifyCase. */
  method VerifyCase(cs: Case, attempt: seq<seq<string>>) returns (r: Option<string>)
    requires cs.k >= 1
    ensures r == Verdict(cs, attempt)
  {
    var parsed := ParseAttempt(cs, attempt);
    if parsed.Err? {
      return Some(parsed.error);
    }
    var ok := CheckCorrectness(cs, parsed.value);
    if !ok {
      return Some(Inconclusive);
    }
    return None;
  }

  /**
   * A list of tiles is accepted exactly when it names between 1 and S tiles,
   * all different and within the K^C tiles of the fractal, that together
   * depend on every original tile.
   */
  lemma VerdictTiles(cs: Case, line: seq<string>)
    requires cs.k >= 1 && |line| >= 1 && line != ["impossible"]
    ensures var vs := TileValues(line);
      Verdict(cs, [line]).None? <==>
        && |line| <= cs.s
        && (forall j | 0 <= j < |line| :: 1 <= vs[j] <= Pow(cs.k, cs.c))
        && DistinctFrom(vs, 0)
        && Covered(ValuesFrom(vs, 0), cs.k, cs.c) == Originals(cs.k)
  {
    var vs := TileValues(line);
    var top := Pow(cs.k, cs.c);
    ParseTilesOk(line, top, 0, {});
    if |line| <= cs.s && ParseTiles(line, top, 0, {}).Ok? {
      var tiles := ValuesFrom(vs, 0);
      assert ParseTiles(line, top, 0, {}).value == tiles;
      assert vs[0] in tiles;
      ValuesFromCard(vs, 0);
      CorrectCovers(cs, tiles);
    }
  }

  lemma {:induction false} ValuesFromCard(vs: seq<int>, i: nat)
    requires i <= |vs|
    ensures |ValuesFrom(vs, i)| <= |vs| - i
    decreases |vs| - i
  {
    if i < |vs| {
      assert ValuesFrom(vs, i) == {vs[i]} + ValuesFrom(vs, i + 1);
      ValuesFromCard(vs, i + 1);
      AddCard(vs[i], ValuesFrom(vs, i + 1));
    }
  }

  // ---------------------------------------------------------------------
  // When an answer exists
  // ---------------------------------------------------------------------

  /** Some set of between 1 and S tiles of the fractal depends on every original tile. */
  ghost predicate Solvable(cs: Case)
    requires cs.k >= 1
  {
    exists tiles :: Solution(cs, tiles)
  }

  /** Between 1 and S tiles of the fractal that together depend on every original tile. */
  predicate Solution(cs: Case, tiles: set<int>)
    requires cs.k >= 1
  {
    && 1 <= |tiles| <= cs.s
    && (forall t | t in tiles :: 1 <= t <= Pow(cs.k, cs.c))
    && Covered(tiles, cs.k, cs.c) == Originals(cs.k)
  }

  /** The zero-based tile whose base-k digits, lowest first, are ds. */
  function Encode(ds: seq<int>, k: int): int
  {
    if ds == [] then 0 else ds[0] + k * Encode(ds[1..], k)
  }

  predicate DigitsBelow(ds: seq<int>, k: int)
  {
    forall i | 0 <= i < |ds| :: 0 <= ds[i] < k
  }

  /** Multiplying by k >= 1 keeps signs and order. */
  lemma MulFacts(k: int, n: int, m: int)
    requires k >= 1
    ensures n >= 1 ==> k * n >= k
    ensures n <= -1 ==> k * n <= -k
    ensures n <= m ==> k * n <= k * m
    ensures n >= 0 ==> k * n >= 0
  {
  }

  lemma NatMul(a: nat, b: nat)
    ensures a * b >= 0
  {
  }

  lemma DivMod(d: int, e: int, k: int)
    requires 0 <= d < k
    ensures (d + k * e) % k == d && (d + k * e) / k == e
  {
    var q, r := (d + k * e) / k, (d + k * e) % k;
    assert k * q + r == k * e + d;
    assert k * (q - e) == d - r;
    MulFacts(k, q - e, 0);
  }

  /** The originals that the digits ds name. */
  function DigitSet(ds: seq<int>): set<int>
  {
    if ds == [] then {} else {ds[0] + 1} + DigitSet(ds[1..])
  }

  lemma {:induction false} DigitSetHas(ds: seq<int>, i: nat)
    requires i < |ds|
    ensures ds[i] + 1 in DigitSet(ds)
  {
    if i > 0 {
      DigitSetHas(ds[1..], i - 1);
    }
  }

  /** A tile depends exactly on the originals its digits name. */
  lemma {:induction false} EncodeInfluence(ds: seq<int>, k: int)
    requires k >= 1 && DigitsBelow(ds, k)
    ensures Influence(Encode(ds, k), k, |ds|) == DigitSet(ds)
  {
    if ds != [] {
      var rest := ds[1..];
      EncodeInfluence(rest, k);
      EncodeStep(ds, k);
      assert DigitSet(ds) == {ds[0] + 1} + DigitSet(rest);
    }
  }

  /** The lowest digit names one original; the other digits are the tile one round fewer. */
  lemma EncodeStep(ds: seq<int>, k: int)
    requires ds != [] && 0 <= ds[0] < k
    ensures Influence(Encode(ds, k), k, |ds|) == {ds[0] + 1} + Influence(Encode(ds[1..], k), k, |ds| - 1)
  {
    var e := Encode(ds[1..], k);
    var m := ds[0] + k * e;
    assert Encode(ds, k) == m;
    DivMod(ds[0], e, k);
    assert Influence(m, k, |ds|) == {m % k + 1} + Influence(m / k, k, |ds| - 1);
  }

  /** A tile's digits place it among the first k^|ds| tiles. */
  lemma {:induction false} EncodeBound(ds: seq<int>, k: int)
    requires k >= 1 && DigitsBelow(ds, k)
    ensures 0 <= Encode(ds, k) < Pow(k, |ds|)
  {
    if ds != [] {
      var rest := ds[1..];
      EncodeBound(rest, k);
      var e, p := Encode(rest, k), Pow(k, |rest|);
      assert Encode(ds, k) == ds[0] + k * e && Pow(k, |ds|) == k * p;
      DigitStep(ds[0], k, e, p);
    }
  }

  /** One more digit below k in front of a number below p gives a number below k * p. */
  lemma DigitStep(d: int, k: int, e: int, p: int)
    requires 0 <= d < k && 0 <= e < p
    ensures 0 <= d + k * e < k * p
  {
    MulFacts(k, e, p - 1);
    assert k * (p - 1) == k * p - k;
  }

  function Min(a: int, b: int): int
  {
    if a < b then a else b
  }

  /** Group g's tile reads originals g*c+1 .. g*c+c, the last ones repeating original k. */
  function GroupDigits(g: nat, c: nat, k: int): (ds: seq<int>)
    requires k >= 1
    ensures |ds| == c && DigitsBelow(ds, k)
    ensures forall i | 0 <= i < c :: ds[i] == Min(g * c + i, k - 1)
  {
    NatMul(g, c);
    var ds := seq(c, i requires 0 <= i < c => Min(g * c + i, k - 1));
    assert forall i | 0 <= i < c :: ds[i] == Min(g * c + i, k - 1);
    ds
  }

  function GroupTile(g: nat, c: nat, k: int): int
    requires k >= 1
  {
    Encode(GroupDigits(g, c, k), k) + 1
  }

  /** The tiles of groups 0 .. count - 1. */
  function GroupTiles(count: nat, c: nat, k: int): (r: set<int>)
    requires k >= 1
    ensures |r| <= count
  {
    if count == 0 then {}
    else
      var rest := GroupTiles(count - 1, c, k);
      AddCard(GroupTile(count - 1, c, k), rest);
      rest + {GroupTile(count - 1, c, k)}
  }

  lemma {:induction false} GroupTilesContain(count: nat, c: nat, k: int, t: int)
    requires k >= 1 && t in GroupTiles(count, c, k)
    ensures exists g: nat :: g < count && t == GroupTile(g, c, k)
  {
    if t != GroupTile(count - 1, c, k) {
      GroupTilesContain(count - 1, c, k, t);
    }
  }

  lemma {:induction false} GroupTileIn(count: nat, c: nat, k: int, g: nat)
    requires k >= 1 && g < count
    ensures GroupTile(g, c, k) in GroupTiles(count, c, k)
  {
    if g < count - 1 {
      GroupTileIn(count - 1, c, k, g);
    }
  }

  lemma GroupTileDepends(g: nat, c: nat, k: int)
    requires k >= 1
    ensures Depends(GroupTile(g, c, k), k, c) == DigitSet(GroupDigits(g, c, k))
    ensures 1 <= GroupTile(g, c, k) <= Pow(k, c)
  {
    EncodeInfluence(GroupDigits(g, c, k), k);
    EncodeBound(GroupDigits(g, c, k), k);
  }

  /** Every n >= 0 is g * c + i with 0 <= i < c. */
  lemma {:induction false} SplitIndex(n: nat, c: nat) returns (g: nat, i: nat)
    requires c >= 1
    ensures n == g * c + i && i < c
  {
    if n < c {
      g, i := 0, n;
    } else {
      g, i := SplitIndex(n - c, c);
      g := g + 1;
    }
  }

  lemma GroupBelow(g: nat, i: nat, c: nat, s: int, k: int)
    requires c >= 1 && g * c + i < k <= s * c
    ensures g < s
  {
    MulFacts(c, s, g);
    assert c * s == s * c && c * g == g * c;
  }

  /** Original x is read by the tile of group (x - 1) / c. */
  lemma GroupCovers(x: int, k: int, c: nat, s: int)
    requires 1 <= x <= k <= s * c && c >= 1
    ensures x in Covered(GroupTiles(s, c, k), k, c)
  {
    var g, i := SplitIndex(x - 1, c);
    GroupBelow(g, i, c, s, k);
    GroupTileIn(s, c, k, g);
    GroupTileDepends(g, c, k);
    var ds := GroupDigits(g, c, k);
    DigitSetHas(ds, i);
    assert ds[i] == x - 1;
  }

  /** With S * C >= K, taking one tile per group of C originals, S groups in all, solves the case. */
  lemma GroupsSolve(cs: Case)
    requires cs.k >= 1 && cs.s * cs.c >= cs.k
    ensures Solvable(cs)
  {
    var k, c, s := cs.k, cs.c, cs.s;
    assert c >= 1;
    MulFacts(c, s, 0);
    assert s >= 1;
    var tiles := GroupTiles(s, c, k);
    GroupTileIn(s, c, k, 0);
    forall t | t in tiles ensures 1 <= t <= Pow(k, c) {
      GroupTilesContain(s, c, k, t);
      var g: nat :| g < s && t == GroupTile(g, c, k);
      GroupTileDepends(g, c, k);
    }
    forall x | x in Originals(k) ensures x in Covered(tiles, k, c) {
      GroupCovers(x, k, c, s);
    }
    forall x | x in Covered(tiles, k, c) ensures x in Originals(k) {
      var t :| t in tiles && x in Depends(t, k, c);
      InOriginals(x, k);
    }
    assert Covered(tiles, k, c) == Originals(k);
    assert Solution(cs, tiles);
  }

  /** IMPOSSIBLE is accepted exactly when no answer exists, that is, when S * C < K. */
  lemma ImpossibleAccepted(cs: Case)
    requires cs.k >= 1
    ensures Verdict(cs, [["impossible"]]).None? <==> cs.s * cs.c < cs.k
    ensures Verdict(cs, [["impossible"]]).None? <==> !Solvable(cs)
  {
    if cs.s * cs.c >= cs.k {
      GroupsSolve(cs);
    } else if Solvable(cs) {
      var tiles :| Solution(cs, tiles);
      TooFewTiles(cs, tiles);
    }
  }
}
