/**
 * The Coin Jam judge (Code Jam 2016, qualification round).  A jamcoin is a
 * string of 0s and 1s that starts and ends with 1 and whose value in every
 * base from 2 to 10 is composite; the contestant lists J jamcoins of length
 * N, each with a proof: one non-trivial divisor per base.
 */
module CoinJam {
  import opened Wrappers
  import opened JudgeUtils
  import opened Sequences

  const OutputTooShort := "Output file does not contain at least 2 lines."
  const WrongNumJamcoins := "Wrong number of jamcoins."

  function BrokenHeader(tc: int): string
  {
    "Case header is broken for case #" + Decimal(tc) + "."
  }

  function WrongNumValues(c: int): string
  {
    "Incorrect number of values on output line #" + Decimal(c) + "."
  }

  function RepeatedJamcoin(coin: string): string
  {
    "Repeated jamcoin: " + coin + "."
  }

  function WrongJamcoinLength(n: int, coin: string): string
  {
    "Expected length " + Decimal(n) + " for jamcoin " + coin + "."
  }

  function WrongJamcoinStartEnd(coin: string): string
  {
    "Jamcoin " + coin + " does not start and end with 1."
  }

  function BadJamcoinCharacter(coin: string): string
  {
    "Jamcoin " + coin + " has a character other than 0 or 1."
  }

  function BadDivisor(d: string): string
  {
    "Error turning divisor " + d + " into integer 2 or greater."
  }

  function SelfDivisor(d: int, coin: string, base: int): string
  {
    "Divisor " + Decimal(d) + " equals jamcoin " + coin + " in base " + Decimal(base) + "."
  }

  function InvalidDivisor(d: int, coin: string, value: int, base: int): string
  {
    "Divisor " + Decimal(d) + " doesn't divide jamcoin " + coin + " (" + Decimal(value) + " in base " + Decimal(base) + ")."
  }

  // ---------------------------------------------------------------------
  // Values in a base
  // ---------------------------------------------------------------------

  predicate Digits(s: string)
  {
    forall i | 0 <= i < |s| :: IsDigit(s[i])
  }

  function Pow(b: int, e: nat): int
  {
    if e == 0 then 1 else b * Pow(b, e - 1)
  }

  /** The positional value of a digit string in base b: each digit times b to its place. */
  function Value(s: string, b: int): int
    requires Digits(s)
  {
    if s == [] then 0 else DigitValue(s[0]) * Pow(b, |s| - 1) + Value(s[1..], b)
  }

  /** The source's ToBase: from the last digit back, with a running power of the base. */
  method ToBase(s: string, b: int) returns (ans: int)
    requires Digits(s)
    ensures ans == Value(s, b)
  {
    ans := 0;
    var val := 1;
    var i := |s|;
    while i > 0
      invariant 0 <= i <= |s|
      invariant ans == Value(s[i..], b) && val == Pow(b, |s| - i)
    {
      i := i - 1;
      assert s[i..][1..] == s[i + 1..];
      ans := ans + val * DigitValue(s[i]);
      val := val * b;
    }
    assert s[0..] == s;
  }

  /** Reading one more digit multiplies what was read by the base (Horner's rule). */
  lemma {:induction false} ValueHorner(s: string, c: char, b: int)
    requires Digits(s) && IsDigit(c)
    ensures Value(s + [c], b) == Value(s, b) * b + DigitValue(c)
  {
    if s == [] {
      assert [] + [c] == [c];
      assert [c][1..] == [];
    } else {
      assert (s + [c])[0] == s[0];
      assert (s + [c])[1..] == s[1..] + [c];
      ValueHorner(s[1..], c, b);
      var x, p, v := DigitValue(s[0]), Pow(b, |s| - 1), Value(s[1..], b);
      assert Pow(b, |s|) == b * p;
      Distribute(x, p, v, b);
    }
  }

  lemma Distribute(x: int, p: int, v: int, b: int)
    ensures x * (b * p) + v * b == (x * p + v) * b
  {
    assert x * (b * p) == (x * p) * b;
  }

  /** A string of 0s and 1s that starts and ends with 1. */
  predicate CoinShape(coin: string)
  {
    |coin| >= 1 && coin[0] == '1' && coin[|coin| - 1] == '1'
    && forall i | 0 <= i < |coin| :: coin[i] == '0' || coin[i] == '1'
  }

  lemma {:induction false} PowPositive(b: int, e: nat)
    requires b >= 2
    ensures Pow(b, e) >= 1
  {
    if e > 0 {
      PowPositive(b, e - 1);
    }
  }

  lemma {:induction false} BinaryValueNonNegative(s: string, b: int)
    requires b >= 2 && forall i | 0 <= i < |s| :: s[i] == '0' || s[i] == '1'
    ensures Value(s, b) >= 0
  {
    if s != [] {
      BinaryValueNonNegative(s[1..], b);
      PowPositive(b, |s| - 1);
    }
  }

  /** A coin's leading 1 makes its value positive in every base from 2 on. */
  lemma CoinPositive(coin: string, b: int)
    requires CoinShape(coin) && b >= 2
    ensures Value(coin, b) >= 1
  {
    BinaryValueNonNegative(coin[1..], b);
    PowPositive(b, |coin| - 1);
  }

  // ---------------------------------------------------------------------
  // Checking the proof of one jamcoin
  // ---------------------------------------------------------------------

  /** The first base from 2 + i on whose divisor fails, as the judge reports it. */
  function ProofError(coin: string, divisors: seq<int>, i: nat): Option<string>
    requires Digits(coin) && i <= |divisors| && forall k | 0 <= k < |divisors| :: divisors[k] >= 2
    decreases |divisors| - i
  {
    if i == |divisors| then None
    else
      var v := Value(coin, 2 + i);
      if v == divisors[i] then Some(SelfDivisor(divisors[i], coin, 2 + i))
      else if v % divisors[i] != 0 then Some(InvalidDivisor(divisors[i], coin, v, 2 + i))
      else ProofError(coin, divisors, i + 1)
  }

  /** Divisor d is a non-trivial divisor of v: it proves v composite. */
  predicate ProperDivisor(d: int, v: int)
  {
    1 < d < v && v % d == 0
  }

  /**
   * The proof passes exactly when every divisor is a non-trivial divisor of
   * the coin's value in its base, so that every one of these values is composite.
   */
  lemma {:induction false} ProofErrorNone(coin: string, divisors: seq<int>, i: nat)
    requires CoinShape(coin) && i <= |divisors|
    requires forall k | 0 <= k < |divisors| :: divisors[k] >= 2
    ensures ProofError(coin, divisors, i).None? <==>
      forall k | i <= k < |divisors| :: ProperDivisor(divisors[k], Value(coin, 2 + k))
    decreases |divisors| - i
  {
    if i < |divisors| {
      ProofErrorNone(coin, divisors, i + 1);
      CoinPositive(coin, 2 + i);
      DivisorBelow(divisors[i], Value(coin, 2 + i));
    }
  }

  /** A divisor of a positive value, other than the value itself, is below it. */
  lemma DivisorBelow(d: int, v: int)
    requires d >= 2 && v >= 1
    ensures v % d == 0 && v != d ==> d < v
  {
    if v % d == 0 && v != d {
      var q := v / d;
      assert v == d * q;
      assert q >= 1;
      assert d * q >= d * 1;
    }
  }

  /** The source's CheckJamcoin: base 2 + i for the i-th divisor. */
  method CheckJamcoin(coin: string, divisors: seq<int>) returns (r: Option<string>)
    requires CoinShape(coin) && forall k | 0 <= k < |divisors| :: divisors[k] >= 2
    ensures r == ProofError(coin, divisors, 0)
  {
    for i := 0 to |divisors|
      invariant ProofError(coin, divisors, 0) == ProofError(coin, divisors, i)
    {
      var base := 2 + i;
      var coinInBase := ToBase(coin, base);
      if coinInBase == divisors[i] {
        return Some(SelfDivisor(divisors[i], coin, base));
      }
      if coinInBase % divisors[i] != 0 {
        return Some(InvalidDivisor(divisors[i], coin, coinInBase, base));
      }
    }
    return None;
  }

  // ---------------------------------------------------------------------
  // Checking the output lines
  // ---------------------------------------------------------------------

  /** Every token is non-empty, as the tokenizer makes them. */
  predicate Tokens(lines: seq<seq<string>>)
  {
    forall c | 0 <= c < |lines| :: |lines[c]| >= 1 && forall k | 0 <= k < |lines[c]| :: |lines[c][k]| >= 1
  }

  /** The divisor tokens as integers of at least 2, or the first one that is not. */
  function ParseDivisors(ds: seq<string>): (r: Result<seq<int>, string>)
    ensures r.Ok? ==> |r.value| == |ds| && forall k | 0 <= k < |ds| :: ToInteger(ds[k], Some(2), None) == Some(r.value[k])
    ensures r.Err? <==> exists k | 0 <= k < |ds| :: ToInteger(ds[k], Some(2), None).None?
  {
    if ds == [] then Ok([])
    else
      var front := ds[..|ds| - 1];
      assert forall k | 0 <= k < |front| :: front[k] == ds[k];
      match ParseDivisors(front)
      case Err(e) => Err(e)
      case Ok(values) =>
        match ToInteger(ds[|ds| - 1], Some(2), None)
        case None => Err(BadDivisor(ds[|ds| - 1]))
        case Some(d) => Ok(values + [d])
  }

  /** An error among the first i divisors is the error of them all: the first one wins. */
  lemma {:induction false} ParsePrefixError(ds: seq<string>, i: nat)
    requires i <= |ds| && ParseDivisors(ds[..i]).Err?
    ensures ParseDivisors(ds) == ParseDivisors(ds[..i])
    decreases |ds| - i
  {
    if i < |ds| {
      assert ds[..i + 1][..i] == ds[..i];
      ParsePrefixError(ds, i + 1);
    } else {
      assert ds[..i] == ds;
    }
  }

  /** The judge's checks on output line c with coin length n, given the coins seen before it. */
  function LineError(line: seq<string>, c: int, n: int, seen: set<string>): Option<string>
    requires forall k | 0 <= k < |line| :: |line[k]| >= 1
  {
    if |line| != 10 then Some(WrongNumValues(c))
    else
      var coin := line[0];
      if coin in seen then Some(RepeatedJamcoin(coin))
      else if |coin| != n then Some(WrongJamcoinLength(n, coin))
      else if coin[0] != '1' || coin[|coin| - 1] != '1' then Some(WrongJamcoinStartEnd(coin))
      else if exists i | 1 <= i < |coin| - 1 :: coin[i] != '0' && coin[i] != '1' then Some(BadJamcoinCharacter(coin))
      else match ParseDivisors(line[1..])
        case Err(e) => Some(e)
        case Ok(ds) => ProofError(coin, ds, 0)
  }

  /** Lines c and on, each checked against the coins of the lines before it. */
  function LinesError(lines: seq<seq<string>>, c: nat, n: int, seen: set<string>): Option<string>
    requires Tokens(lines) && 1 <= c <= |lines|
    decreases |lines| - c
  {
    if c == |lines| then None
    else match LineError(lines[c], c, n, seen)
      case Some(e) => Some(e)
      case None => LinesError(lines, c + 1, n, seen + {lines[c][0]})
  }

  function Header(tc: int): seq<string>
  {
    ["case", "#" + Decimal(tc) + ":"]
  }

  /** Cases tc and on; every case is checked against the same output lines. */
  function CasesError(lines: seq<seq<string>>, cases: seq<(int, int)>, tc: nat): Option<string>
    requires Tokens(lines) && |lines| >= 2 && 1 <= tc <= |cases| + 1
    decreases |cases| + 1 - tc
  {
    if tc == |cases| + 1 then None
    else if lines[0] != Header(tc) then Some(BrokenHeader(tc))
    else if |lines| - 1 != cases[tc - 1].1 then Some(WrongNumJamcoins)
    else match LinesError(lines, 1, cases[tc - 1].0, {})
      case Some(e) => Some(e)
      case None => CasesError(lines, cases, tc + 1)
  }

  /** The judge's verdict on a tokenized output; each case is (N, J). */
  function Verdict(lines: seq<seq<string>>, cases: seq<(int, int)>): Option<string>
    requires Tokens(lines)
  {
    if |lines| <= 1 then Some(OutputTooShort) else CasesError(lines, cases, 1)
  }

  // ---------------------------------------------------------------------
  // What an accepted output is
  // ---------------------------------------------------------------------

  /** A line with a jamcoin of length n and, for bases 2..10, a non-trivial divisor of its value. */
  predicate ValidLine(line: seq<string>, n: int)
  {
    && |line| == 10 && |line[0]| == n && CoinShape(line[0])
    && var ds := ParseDivisors(line[1..]);
    && ds.Ok?
    && forall k | 0 <= k < 9 :: ProperDivisor(ds.value[k], Value(line[0], 2 + k))
  }

  function Coins(lines: seq<seq<string>>, c: nat): seq<string>
    requires Tokens(lines) && c <= |lines|
    decreases |lines| - c
  {
    if c == |lines| then [] else [lines[c][0]] + Coins(lines, c + 1)
  }

  lemma LineErrorNone(line: seq<string>, c: int, n: int, seen: set<string>)
    requires forall k | 0 <= k < |line| :: |line[k]| >= 1
    ensures LineError(line, c, n, seen).None? <==> ValidLine(line, n) && line[0] !in seen
  {
    if |line| == 10 {
      var coin := line[0];
      var shaped := coin[0] == '1' && coin[|coin| - 1] == '1'
        && forall i | 1 <= i < |coin| - 1 :: coin[i] == '0' || coin[i] == '1';
      assert shaped <==> CoinShape(coin);
      var ds := ParseDivisors(line[1..]);
      if CoinShape(coin) && ds.Ok? {
        ProofErrorNone(coin, ds.value, 0);
      }
    }
  }

  lemma DistinctCons<T>(x: T, rest: seq<T>)
    ensures Distinct([x] + rest) <==> x !in rest && Distinct(rest)
  {
    var s := [x] + rest;
    if x !in rest && Distinct(rest) {
      forall i, j | 0 <= i < j < |s| ensures s[i] != s[j] {
        assert s[j] == rest[j - 1];
        if i > 0 {
          assert s[i] == rest[i - 1];
        }
      }
    }
    if Distinct(s) {
      forall i, j | 0 <= i < j < |rest| ensures rest[i] != rest[j] {
        assert rest[i] == s[i + 1] && rest[j] == s[j + 1];
      }
      forall j | 0 <= j < |rest| ensures rest[j] != x {
        assert rest[j] == s[j + 1] && s[0] == x;
      }
    }
  }

  /** Lines c and on are valid jamcoin lines, each with a coin not seen before it. */
  predicate ValidFrom(lines: seq<seq<string>>, c: nat, n: int, seen: set<string>)
    requires Tokens(lines) && 1 <= c <= |lines|
    decreases |lines| - c
  {
    c == |lines| ||
    (ValidLine(lines[c], n) && lines[c][0] !in seen && ValidFrom(lines, c + 1, n, seen + {lines[c][0]}))
  }

  lemma {:induction false} LinesErrorValidFrom(lines: seq<seq<string>>, c: nat, n: int, seen: set<string>)
    requires Tokens(lines) && 1 <= c <= |lines|
    ensures LinesError(lines, c, n, seen).None? <==> ValidFrom(lines, c, n, seen)
    decreases |lines| - c
  {
    if c < |lines| {
      LinesErrorCons(lines, c, n, seen);
      LinesErrorValidFrom(lines, c + 1, n, seen + {lines[c][0]});
    }
  }

  /** Line c passes when it is a valid line with a new coin; then the lines after it are read with that coin seen. */
  lemma LinesErrorCons(lines: seq<seq<string>>, c: nat, n: int, seen: set<string>)
    requires Tokens(lines) && 1 <= c < |lines|
    ensures LinesError(lines, c, n, seen).None? <==>
      ValidLine(lines[c], n) && lines[c][0] !in seen && LinesError(lines, c + 1, n, seen + {lines[c][0]}).None?
  {
    LineErrorNone(lines[c], c, n, seen);
  }

  /** The recursive reading of the lines agrees with the all-at-once one. */
  lemma {:induction false} ValidFromAll(lines: seq<seq<string>>, c: nat, n: int, seen: set<string>)
    requires Tokens(lines) && 1 <= c <= |lines|
    ensures ValidFrom(lines, c, n, seen) <==>
      (forall k | c <= k < |lines| :: ValidLine(lines[k], n))
      && Distinct(Coins(lines, c)) && forall x | x in Coins(lines, c) :: x !in seen
    decreases |lines| - c
  {
    if c < |lines| {
      var coin, rest := lines[c][0], Coins(lines, c + 1);
      ValidFromAll(lines, c + 1, n, seen + {coin});
      assert Coins(lines, c) == [coin] + rest;
      DistinctCons(coin, rest);
      assert (forall x | x in rest :: x !in seen + {coin}) <==> coin !in rest && forall x | x in rest :: x !in seen;
    }
  }

  /**
   * The lines from c on pass exactly when each is a valid jamcoin line and
   * their coins are distinct and new.
   */
  lemma LinesErrorNone(lines: seq<seq<string>>, c: nat, n: int, seen: set<string>)
    requires Tokens(lines) && 1 <= c <= |lines|
    ensures LinesError(lines, c, n, seen).None? <==>
      (forall k | c <= k < |lines| :: ValidLine(lines[k], n))
      && Distinct(Coins(lines, c)) && forall x | x in Coins(lines, c) :: x !in seen
  {
    LinesErrorValidFrom(lines, c, n, seen);
    ValidFromAll(lines, c, n, seen);
  }

  /**
   * With one case (the only one the problem has), an output is accepted
   * exactly when it has the case header, J lines, each a valid jamcoin line
   * with a coin of length N, and no coin twice.
   */
  lemma VerdictOneCase(lines: seq<seq<string>>, n: int, j: int)
    requires Tokens(lines)
    ensures Verdict(lines, [(n, j)]).None? <==>
      && |lines| >= 2 && lines[0] == Header(1) && |lines| - 1 == j
      && (forall k | 1 <= k < |lines| :: ValidLine(lines[k], n))
      && Distinct(Coins(lines, 1))
  {
    if |lines| >= 2 && lines[0] == Header(1) && |lines| - 1 == j {
      var cases := [(n, j)];
      assert CasesError(lines, cases, 2) == None;
      assert CasesError(lines, cases, 1).None? <==> LinesError(lines, 1, n, {}).None?;
      LinesErrorNone(lines, 1, n, {});
    }
  }

  /** With more than one case, case 2 sees case 1's header again: nothing is accepted. */
  lemma SecondCaseRejected(lines: seq<seq<string>>, cases: seq<(int, int)>)
    requires Tokens(lines) && |cases| >= 2
    ensures Verdict(lines, cases).Some?
  {
    if |lines| >= 2 && lines[0] == Header(1) && |lines| - 1 == cases[0].1 && LinesError(lines, 1, cases[0].0, {}).None? {
      assert Verdict(lines, cases) == CasesError(lines, cases, 2);
      assert Header(1)[1][1] != Header(2)[1][1];
    }
  }

  // ---------------------------------------------------------------------
  // The judge
  // ---------------------------------------------------------------------

  /** The loop over the coin's inner characters. */
  method MiddleBinary(coin: string) returns (b: bool)
    ensures b <==> forall i | 1 <= i < |coin| - 1 :: coin[i] == '0' || coin[i] == '1'
  {
    var i := 1;
    while i < |coin| - 1
      invariant 1 <= i && forall i' | 1 <= i' < i && i' < |coin| - 1 :: coin[i'] == '0' || coin[i'] == '1'
    {
      if coin[i] != '0' && coin[i] != '1' {
        return false;
      }
      i := i + 1;
    }
    return true;
  }

  /** The loop turning the divisor tokens into integers, in place in the source. */
  method ParseAll(divisors: seq<string>) returns (r: Result<seq<int>, string>)
    ensures r == ParseDivisors(divisors)
  {
    var ds: seq<int> := [];
    assert divisors[..0] == [];
    for k := 0 to |divisors|
      invariant ParseDivisors(divisors[..k]) == Ok(ds)
    {
      assert divisors[..k + 1][..k] == divisors[..k];
      var d := ToInteger(divisors[k], Some(2), None);
      if d.None? {
        ParsePrefixError(divisors, k + 1);
        return Err(BadDivisor(divisors[k]));
      }
      ds := ds + [d.value];
    }
    assert divisors[..|divisors|] == divisors;
    return Ok(ds);
  }

  /** The per-line part of the source's FindError. */
  method CheckLine(line: seq<string>, c: int, n: int, seen: set<string>) returns (r: Option<string>)
    requires forall k | 0 <= k < |line| :: |line[k]| >= 1
    ensures r == LineError(line, c, n, seen)
  {
    if |line| != 10 {
      return Some(WrongNumValues(c));
    }
    var coin, divisors := line[0], line[1..];
    if coin in seen {
      return Some(RepeatedJamcoin(coin));
    }
    if |coin| != n {
      return Some(WrongJamcoinLength(n, coin));
    }
    if coin[0] != '1' || coin[|coin| - 1] != '1' {
      return Some(WrongJamcoinStartEnd(coin));
    }
    var binary := MiddleBinary(coin);
    if !binary {
      return Some(BadJamcoinCharacter(coin));
    }
    var parsed := ParseAll(divisors);
    if parsed.Err? {
      return Some(parsed.error);
    }
    var ds := parsed.value;
    r := CheckJamcoin(coin, ds);
  }

  /** The source's FindError on the tokenized output; `cases` holds each case's (N, J). */
  method FindError(lines: seq<seq<string>>, cases: seq<(int, int)>) returns (r: Option<string>)
    requires Tokens(lines)
    ensures r == Verdict(lines, cases)
  {
    if |lines| <= 1 {
      return Some(OutputTooShort);
    }
    for tc := 1 to |cases| + 1
      invariant CasesError(lines, cases, 1) == CasesError(lines, cases, tc)
    {
      if lines[0] != Header(tc) {
        return Some(BrokenHeader(tc));
      }
      var (n, needed) := cases[tc - 1];
      if |lines| - 1 != needed {
        return Some(WrongNumJamcoins);
      }
      r := CheckLines(lines, n);
      if r.Some? {
        return;
      }
    }
    return None;
  }

  /** One case's pass over the jamcoin lines, remembering the coins seen so far. */
  method CheckLines(lines: seq<seq<string>>, n: int) returns (r: Option<string>)
    requires Tokens(lines) && |lines| >= 1
    ensures r == LinesError(lines, 1, n, {})
  {
    var seen: set<string> := {};
    for c := 1 to |lines|
      invariant LinesError(lines, 1, n, {}) == LinesError(lines, c, n, seen)
    {
      var err := CheckLine(lines[c], c, n, seen);
      if err.Some? {
        return err;
      }
      seen := seen + {lines[c][0]};
    }
    return None;
  }
}
