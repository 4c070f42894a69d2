/**
 * The Fence Design judge's reusable library (strict integer parsing, the
 * tokenizer, splitting an output into "Case #k:" blocks, judging all cases)
 * and its fence geometry: which fences cross, and which are repeated.
 */
module FenceDesign {
  import opened Wrappers
  import opened JudgeUtils
  import opened Sequences

  // ---------------------------------------------------------------------
  // Messages
  // ---------------------------------------------------------------------

  /** Long strings are cut to 47 characters and "..." when quoted in a message. */
  function Truncate(s: string): string
  {
    if |s| <= 50 then s else s[..47] + "..."
  }

  function Min(a: int, b: int): int
  {
    if a <= b then a else b
  }

  /** A quoted string is at most 50 characters, is unchanged exactly when it fits, and cutting twice cuts once. */
  lemma TruncateBounds(s: string)
    ensures |Truncate(s)| == Min(|s|, 50)
    ensures Truncate(s) == s <==> |s| <= 50
    ensures Truncate(s)[..Min(|s|, 47)] == s[..Min(|s|, 47)]
    ensures Truncate(Truncate(s)) == Truncate(s)
  {
  }

  // ---------------------------------------------------------------------
  // Integers
  // ---------------------------------------------------------------------

  /** 10^18, the largest magnitude ParseInt accepts. */
  const Limit: int := 1000000000000000000

  lemma LimitIsPow10()
    ensures Pow10(18) == Limit
  {
    assert Pow10(3) == 1000;
    assert Pow10(6) == 1000 * Pow10(3) by {
      assert Pow10(6) == 10 * Pow10(5) && Pow10(5) == 10 * Pow10(4) && Pow10(4) == 10 * Pow10(3);
    }
    assert Pow10(9) == 1000 * Pow10(6) by {
      assert Pow10(9) == 10 * Pow10(8) && Pow10(8) == 10 * Pow10(7) && Pow10(7) == 10 * Pow10(6);
    }
    assert Pow10(12) == 1000 * Pow10(9) by {
      assert Pow10(12) == 10 * Pow10(11) && Pow10(11) == 10 * Pow10(10) && Pow10(10) == 10 * Pow10(9);
    }
    assert Pow10(15) == 1000 * Pow10(12) by {
      assert Pow10(15) == 10 * Pow10(14) && Pow10(14) == 10 * Pow10(13) && Pow10(13) == 10 * Pow10(12);
    }
    assert Pow10(18) == 1000 * Pow10(15) by {
      assert Pow10(18) == 10 * Pow10(17) && Pow10(17) == 10 * Pow10(16) && Pow10(16) == 10 * Pow10(15);
    }
  }

  /** An optional '-' and at least one digit; leading zeros are allowed. */
  predicate IntToken(s: string)
  {
    (|s| >= 1 && AllDigits(s)) || (|s| >= 2 && s[0] == '-' && AllDigits(s[1..]))
  }

  function TokenValue(s: string): int
    requires IntToken(s)
  {
    AllDigitsIff(s);
    if s[0] == '-' then -(DigitsValue(s[1..]) as int) else DigitsValue(s)
  }

  function NotAnInteger(s: string): string
  {
    "Not an integer in range: " + Truncate(s)
  }

  /** What ParseInt promises: an integer token in [-10^18, 10^18], and its value. */
  function IntInRange(s: string): Result<int, string>
  {
    if IntToken(s) && -Limit <= TokenValue(s) <= Limit then Ok(TokenValue(s)) else Err(NotAnInteger(s))
  }

  /** 10^18 is written as a one and eighteen zeros. */
  lemma LimitDigits()
    ensures AllDigits("1" + Zeros(18)) && DigitsValue("1" + Zeros(18)) == Limit
  {
    LimitIsPow10();
    DigitsConcat("1", Zeros(18));
    ZerosValue(18);
    assert DigitsValue("1") == 1 by {
      assert "1"[..0] == "";
    }
  }

  /** The digits without leading zeros are within 10^18 exactly when there are at most 18 or they are 10^18 itself. */
  lemma RangeByLength(d: string)
    requires AllDigits(d) && |d| >= 1 && (|d| > 1 ==> d[0] != '0')
    ensures DigitsValue(d) <= Limit <==> |d| <= 18 || d == "1" + Zeros(18)
  {
    LimitIsPow10();
    var one := "1" + Zeros(18);
    LimitDigits();
    if |d| <= 18 {
      DigitsBelow(d);
      Pow10Monotone(|d|, 18);
    } else {
      NoLeadingZeroValue(d);
      Pow10Monotone(18, |d| - 1);
      if |d| == 19 {
        if DigitsValue(d) == Limit {
          CanonicalDigits(d);
          assert one[0] == '1';
          CanonicalDigits(one);
        }
      } else {
        Pow10Monotone(19, |d| - 1);
        assert Pow10(19) > Limit;
      }
    }
  }

  /**
   * The source's ParseInt, as written: check the characters, strip leading
   * zeros (keeping at least one character), bound the length, then read the
   * number with a stream.  The token "-" passes every check; the stream then
   * fails and leaves 0.
   */
  method ParseIntAsWritten(ss: string) returns (r: Result<int, string>)
    ensures ss == "-" ==> r == Ok(0)
    ensures ss != "-" ==> r == IntInRange(ss)
  {
    var error := NotAnInteger(ss);
    AllDigitsIff(ss);
    if |ss| >= 1 {
      AllDigitsIff(ss[1..]);
    }
    if |ss| == 0 || (ss[0] != '-' && !IsDigit(ss[0])) {
      return Err(error);
    }
    for i := 1 to |ss|
      invariant forall k | 1 <= k < i :: IsDigit(ss[k])
    {
      if !IsDigit(ss[i]) {
        return Err(error);
      }
    }
    var s := "";
    var firstDigit := 0;
    if ss[0] == '-' {
      s := "-";
      firstDigit := 1;
    }
    var start := firstDigit;
    while firstDigit < |ss| - 1 && ss[firstDigit] == '0'
      invariant start <= firstDigit <= |ss| && (start < |ss| ==> firstDigit < |ss|)
      invariant forall k | start <= k < firstDigit :: ss[k] == '0'
    {
      firstDigit := firstDigit + 1;
    }
    var digits := ss[firstDigit..];
    s := s + digits;
    if |s| == 0 || |s| > 20 {
      ParseIntChecks(ss, start, firstDigit);
      return Err(error);
    }
    if |s| == 20 && s != "-1" + Zeros(18) {
      ParseIntChecks(ss, start, firstDigit);
      return Err(error);
    }
    if |s| == 19 && s[0] != '-' && s != "1" + Zeros(18) {
      ParseIntChecks(ss, start, firstDigit);
      return Err(error);
    }
    if ss == "-" {
      return Ok(0);
    }
    ParseIntChecks(ss, start, firstDigit);
    r := Ok(if ss[0] == '-' then -(DigitsValue(digits) as int) else DigitsValue(digits));
  }

  /** The length checks of ParseInt on the stripped token decide exactly the range. */
  lemma ParseIntChecks(ss: string, start: nat, firstDigit: nat)
    requires ss != "-" && |ss| >= 1 && (ss[0] == '-' || IsDigit(ss[0]))
    requires forall k | 1 <= k < |ss| :: IsDigit(ss[k])
    requires start == (if ss[0] == '-' then 1 else 0)
    requires start <= firstDigit < |ss|
    requires forall k | start <= k < firstDigit :: ss[k] == '0'
    requires firstDigit == |ss| - 1 || ss[firstDigit] != '0'
    ensures IntToken(ss) && AllDigits(ss[firstDigit..])
    ensures TokenValue(ss) == if ss[0] == '-' then -(DigitsValue(ss[firstDigit..]) as int) else DigitsValue(ss[firstDigit..])
    ensures var s := (if ss[0] == '-' then "-" else "") + ss[firstDigit..];
            (-Limit <= TokenValue(ss) <= Limit) <==>
              !(|s| > 20 || (|s| == 20 && s != "-1" + Zeros(18)) || (|s| == 19 && s[0] != '-' && s != "1" + Zeros(18)))
  {
    var d := ss[firstDigit..];
    var body := ss[start..];
    AllDigitsIff(d);
    assert body == Zeros(firstDigit - start) + d;
    LeadingZeros(firstDigit - start, d);
    RangeByLength(d);
    if ss[0] == '-' {
      assert ss[1..] == body;
      assert ("-" + d)[1..] == d;
    } else {
      assert ss == body;
    }
  }

  /** ParseInt as intended: "-" alone is not an integer. */
  method ParseInt(ss: string) returns (r: Result<int, string>)
    ensures r == IntInRange(ss)
  {
    if ss == "-" {
      return Err(NotAnInteger(ss));
    }
    r := ParseIntAsWritten(ss);
  }

  /** Every integer in range is read back from its rendering. */
  lemma IntInRangeDecimal(v: int)
    requires -Limit <= v <= Limit
    ensures IntInRange(Decimal(v)) == Ok(v)
  {
    if v < 0 {
      assert Decimal(v)[1..] == NatDigits(-v);
    } else {
      AllDigitsIff(Decimal(v));
    }
  }

  /** Leading zeros in front of the digits do not change what is read. */
  lemma IntInRangeLeadingZeros(n: nat, v: int)
    requires 0 <= v <= Limit
    ensures IntInRange(Zeros(n) + Decimal(v)) == Ok(v)
  {
    LeadingZeros(n, Decimal(v));
    AllDigitsIff(Zeros(n) + Decimal(v));
  }

  // ---------------------------------------------------------------------
  // Lowercase and tokens
  // ---------------------------------------------------------------------

  predicate IsUpper(c: char)
  {
    'A' <= c <= 'Z'
  }

  /** The string with its ASCII capitals lowered and every other character kept. */
  function Lowercase(s: string): (r: string)
    ensures |r| == |s|
    ensures forall i | 0 <= i < |s| :: !IsUpper(r[i]) && (r[i] == s[i] <==> !IsUpper(s[i]))
    ensures forall i | 0 <= i < |s| :: IsUpper(s[i]) ==> r[i] as int == s[i] as int + 32
  {
    seq(|s|, i requires 0 <= i < |s| => LowerChar(s[i]))
  }

  lemma LowercaseIdempotent(s: string)
    ensures Lowercase(Lowercase(s)) == Lowercase(s)
  {
  }

  /** The characters C++'s `isspace` accepts in the default locale. */
  predicate IsSpace(c: char)
  {
    c == ' ' || c == '\t' || c == '\n' || c == '\r' || c as int == 11 || c as int == 12
  }

  predicate NoSpace(w: string)
  {
    forall i | 0 <= i < |w| :: !IsSpace(w[i])
  }

  /** The whitespace-separated words of `s`, where `cur` is a word already begun. */
  function Words(s: string, cur: string): seq<string>
  {
    if s == [] then
      (if cur == [] then [] else [cur])
    else if IsSpace(s[0]) then
      (if cur == [] then [] else [cur]) + Words(s[1..], [])
    else
      Words(s[1..], cur + [s[0]])
  }

  function LowerAll(ws: seq<string>): (r: seq<string>)
    ensures |r| == |ws| && forall i | 0 <= i < |ws| :: r[i] == Lowercase(ws[i])
  {
    seq(|ws|, i requires 0 <= i < |ws| => Lowercase(ws[i]))
  }

  /** Reads the words of a line with a stream, lowering each. */
  method Tokenize(l: string) returns (r: seq<string>)
    ensures r == LowerAll(Words(l, []))
  {
    r := [];
    var cur := "";
    var i := 0;
    while i < |l|
      invariant 0 <= i <= |l|
      invariant r + LowerAll(Words(l[i..], cur)) == LowerAll(Words(l, []))
    {
      assert l[i..][1..] == l[i + 1..];
      if IsSpace(l[i]) {
        if cur != [] {
          assert LowerAll([cur] + Words(l[i + 1..], [])) == [Lowercase(cur)] + LowerAll(Words(l[i + 1..], []));
          r := r + [Lowercase(cur)];
          cur := [];
        }
      } else {
        cur := cur + [l[i]];
      }
      i := i + 1;
    }
    assert l[|l|..] == [];
    if cur != [] {
      r := r + [Lowercase(cur)];
    }
  }

  /** Every word is non-empty and holds no whitespace. */
  lemma {:induction false} WordsShape(s: string, cur: string)
    requires NoSpace(cur)
    ensures forall w | w in Words(s, cur) :: w != [] && NoSpace(w)
  {
    if s != [] {
      if IsSpace(s[0]) {
        WordsShape(s[1..], []);
      } else {
        WordsShape(s[1..], cur + [s[0]]);
      }
    }
  }

  lemma {:induction false} WordsAppend(w: string, rest: string, cur: string)
    requires NoSpace(w)
    ensures Words(w + rest, cur) == Words(rest, cur + w)
  {
    if w == [] {
      assert w + rest == rest && cur + w == cur;
    } else {
      assert (w + rest)[0] == w[0] && (w + rest)[1..] == w[1..] + rest;
      WordsAppend(w[1..], rest, cur + [w[0]]);
      assert cur + [w[0]] + w[1..] == cur + w;
    }
  }

  /** Words joined by single spaces. */
  function Join(ws: seq<string>): string
  {
    if ws == [] then "" else if |ws| == 1 then ws[0] else ws[0] + " " + Join(ws[1..])
  }

  /** Joining non-empty words with spaces and reading them back gives the words. */
  lemma {:induction false} WordsJoin(ws: seq<string>)
    requires forall i | 0 <= i < |ws| :: ws[i] != [] && NoSpace(ws[i])
    ensures Words(Join(ws), []) == ws
  {
    if |ws| == 1 {
      WordsAppend(ws[0], [], []);
      assert ws[0] + [] == ws[0] && [] + ws[0] == ws[0];
      assert Words([], ws[0]) == [ws[0]];
    } else if |ws| > 1 {
      var rest := " " + Join(ws[1..]);
      assert Join(ws) == ws[0] + rest;
      WordsAppend(ws[0], rest, []);
      assert [] + ws[0] == ws[0] && rest[0] == ' ';
      assert ws == [ws[0]] + ws[1..];
      assert rest[1..] == Join(ws[1..]);
      WordsJoin(ws[1..]);
    }
  }

  // ---------------------------------------------------------------------
  // Splitting an output into cases
  // ---------------------------------------------------------------------

  type Line = seq<string>
  type Case = seq<Line>

  /** A line that opens a case: "case" then a token starting with '#'. */
  predicate IsCaseLine(line: Line)
  {
    |line| >= 2 && line[0] == "case" && |line[1]| >= 1 && line[1][0] == '#'
  }

  /** One step of the split: a case line opens a new case, any other line joins the last one. */
  function AddLine(cases: seq<Case>, line: Line): Result<seq<Case>, string>
  {
    if IsCaseLine(line) then
      var tag := line[1];
      if |tag| < 3 || tag[|tag| - 1] != ':' then
        Err("Bad format in case line")
      else
        var num := tag[1..|tag| - 1];
        match IntInRange(num)
        case Err(e) => Err(e)
        case Ok(v) =>
          if v != |cases| + 1 then
            Err("Found case: " + Truncate(num) + ", expected: " + Decimal(|cases| + 1))
          else
            Ok(cases + [[line[2..]]])
    else if cases == [] then
      Err("First line doesn't start with case #1:")
    else
      Ok(cases[..|cases| - 1] + [cases[|cases| - 1] + [line]])
  }

  /** The lines added one by one to `start`; the first error stops the split. */
  function AddLines(start: Result<seq<Case>, string>, lines: seq<Line>): Result<seq<Case>, string>
  {
    if lines == [] then
      start
    else
      match AddLines(start, lines[..|lines| - 1])
      case Err(e) => Err(e)
      case Ok(cases) => AddLine(cases, lines[|lines| - 1])
  }

  /** What SplitCases promises: the lines split into cases numbered 1, 2, ... in order. */
  function Split(lines: seq<Line>): Result<seq<Case>, string>
  {
    AddLines(Ok([]), lines)
  }

  lemma {:induction false} AddLinesAppend(start: Result<seq<Case>, string>, a: seq<Line>, b: seq<Line>)
    ensures AddLines(start, a + b) == AddLines(AddLines(start, a), b)
  {
    if b == [] {
      assert a + b == a;
    } else {
      assert (a + b)[..|a + b| - 1] == a + b[..|b| - 1];
      AddLinesAppend(start, a, b[..|b| - 1]);
    }
  }

  lemma {:induction false} AddLinesError(e: string, lines: seq<Line>)
    ensures AddLines(Err(e), lines) == Err(e)
  {
    if lines != [] {
      AddLinesError(e, lines[..|lines| - 1]);
    }
  }

  /** Once a prefix of the lines fails, the whole split fails the same way. */
  lemma ErrorSticks(lines: seq<Line>, k: nat)
    requires k <= |lines| && Split(lines[..k]).Err?
    ensures Split(lines) == Split(lines[..k])
  {
    assert lines == lines[..k] + lines[k..];
    AddLinesAppend(Ok([]), lines[..k], lines[k..]);
    AddLinesError(Split(lines[..k]).error, lines[k..]);
  }

  /** An output whose first line does not open case 1 is refused. */
  lemma SplitFirstLine(lines: seq<Line>)
    requires |lines| >= 1 && !IsCaseLine(lines[0])
    ensures Split(lines) == Err("First line doesn't start with case #1:")
  {
    var first := lines[..1];
    var none: seq<Line> := [];
    assert first[..|first| - 1] == none && first[|first| - 1] == lines[0];
    assert AddLines(Ok([]), none) == Ok([]);
    assert Split(first) == AddLine([], lines[0]);
    ErrorSticks(lines, 1);
  }

  /** Splits tokenized lines into cases; each case's first line is its case line without "case #k:". */
  method SplitCases(lines: seq<Line>) returns (r: Result<seq<Case>, string>)
    ensures r == Split(lines)
  {
    var cases: seq<Case> := [];
    for i := 0 to |lines|
      invariant Split(lines[..i]) == Ok(cases)
    {
      var line := lines[i];
      assert lines[..i + 1][..i] == lines[..i];
      if IsCaseLine(line) {
        if |line[1]| < 3 || line[1][|line[1]| - 1] != ':' {
          ErrorSticks(lines, i + 1);
          return Err("Bad format in case line");
        }
        var caseNum := line[1][1..|line[1]| - 1];
        var v := ParseInt(caseNum);
        if v.Err? {
          ErrorSticks(lines, i + 1);
          return Err(v.error);
        }
        if v.value != |cases| + 1 {
          ErrorSticks(lines, i + 1);
          return Err("Found case: " + Truncate(caseNum) + ", expected: " + Decimal(|cases| + 1));
        }
        cases := cases + [[line[2..]]];
      } else {
        if cases == [] {
          ErrorSticks(lines, i + 1);
          return Err("First line doesn't start with case #1:");
        }
        cases := cases[..|cases| - 1] + [cases[|cases| - 1] + [line]];
      }
    }
    assert lines[..|lines|] == lines;
    return Ok(cases);
  }

  /** The case line a contestant writes for case k (counting from 1). */
  function CaseTag(k: nat): string
  {
    "#" + Decimal(k) + ":"
  }

  /** The lines of case number k: its case line carries the case's first line. */
  function CaseLines(k: nat, c: Case): seq<Line>
    requires |c| >= 1
  {
    [["case", CaseTag(k)] + c[0]] + c[1..]
  }

  /** Cases that writing out and splitting again can reproduce. */
  predicate WellFormed(cases: seq<Case>)
  {
    |cases| <= Limit &&
    forall k | 0 <= k < |cases| :: |cases[k]| >= 1 && forall m | 1 <= m < |cases[k]| :: !IsCaseLine(cases[k][m])
  }

  function Unsplit(cases: seq<Case>): seq<Line>
    requires WellFormed(cases)
  {
    if cases == [] then [] else Unsplit(cases[..|cases| - 1]) + CaseLines(|cases|, cases[|cases| - 1])
  }

  lemma {:induction false} BodyLines(done: seq<Case>, c: Case, m: nat)
    requires 1 <= m <= |c|
    requires forall j | 1 <= j < |c| :: !IsCaseLine(c[j])
    ensures AddLines(Ok(done + [c[..1]]), c[1..m]) == Ok(done + [c[..m]])
  {
    if m > 1 {
      BodyLines(done, c, m - 1);
      assert c[1..m][..m - 2] == c[1..m - 1];
      assert c[..m - 1] + [c[m - 1]] == c[..m];
      var cs := done + [c[..m - 1]];
      assert cs[..|cs| - 1] == done;
    }
  }

  lemma OneCase(done: seq<Case>, c: Case)
    requires |c| >= 1 && |done| + 1 <= Limit
    requires forall j | 1 <= j < |c| :: !IsCaseLine(c[j])
    ensures AddLines(Ok(done), CaseLines(|done| + 1, c)) == Ok(done + [c])
  {
    var header := ["case", CaseTag(|done| + 1)] + c[0];
    var tag := CaseTag(|done| + 1);
    assert tag[1..|tag| - 1] == Decimal(|done| + 1);
    IntInRangeDecimal(|done| + 1);
    assert header[2..] == c[0];
    var single: seq<Line> := [header];
    assert AddLines(Ok(done), single) == Ok(done + [c[..1]]) by {
      assert single[..0] == [];
      assert [c[0]] == c[..1];
    }
    BodyLines(done, c, |c|);
    assert CaseLines(|done| + 1, c) == [header] + c[1..];
    AddLinesAppend(Ok(done), single, c[1..]);
    assert c[..|c|] == c;
  }

  lemma WellFormedPrefix(cases: seq<Case>)
    requires WellFormed(cases) && |cases| >= 1
    ensures WellFormed(cases[..|cases| - 1])
  {
  }

  lemma LastCase(done: seq<Case>, last: Case)
    requires WellFormed(done) && WellFormed(done + [last])
    requires Split(Unsplit(done)) == Ok(done)
    ensures Split(Unsplit(done + [last])) == Ok(done + [last])
  {
    var cases := done + [last];
    assert cases[..|cases| - 1] == done && cases[|cases| - 1] == last;
    assert Unsplit(cases) == Unsplit(done) + CaseLines(|done| + 1, last);
    AddLinesAppend(Ok([]), Unsplit(done), CaseLines(|done| + 1, last));
    assert |last| >= 1 && forall m | 1 <= m < |last| :: !IsCaseLine(last[m]) by {
      assert cases[|done|] == last;
    }
    OneCase(done, last);
  }

  /** Writing cases out with their case lines and splitting them again gives the cases back. */
  lemma {:induction false} SplitUnsplit(cases: seq<Case>)
    requires WellFormed(cases)
    ensures Split(Unsplit(cases)) == Ok(cases)
  {
    if cases != [] {
      var done, last := cases[..|cases| - 1], cases[|cases| - 1];
      WellFormedPrefix(cases);
      SplitUnsplit(done);
      assert done + [last] == cases;
      LastCase(done, last);
    }
  }

  // ---------------------------------------------------------------------
  // Judging all cases
  // ---------------------------------------------------------------------

  /**
   * Judges the cases in order: a wrong number of cases is an error, otherwise
   * the verdict is the first case's complaint, prefixed by its number, or ""
   * when no case complains.
   */
  method JudgeAllCases<T, U>(input: seq<T>, attempt: seq<U>, judgeCase: (T, U) -> string)
    returns (r: Result<string, string>)
    ensures r.Err? <==> |attempt| != |input|
    ensures r.Err? ==> r.error == "Wrong number of cases in attempt: " + Decimal(|attempt|) + ", expected: " + Decimal(|input|)
    ensures r == Ok("") <==> |attempt| == |input| && forall i | 0 <= i < |input| :: judgeCase(input[i], attempt[i]) == ""
    ensures r.Ok? && r.value != "" ==>
              exists i | 0 <= i < |input| ::
                (forall k | 0 <= k < i :: judgeCase(input[k], attempt[k]) == "") &&
                judgeCase(input[i], attempt[i]) != "" &&
                r.value == "Case #" + Decimal(i + 1) + ": " + judgeCase(input[i], attempt[i])
  {
    if |attempt| != |input| {
      return Err("Wrong number of cases in attempt: " + Decimal(|attempt|) + ", expected: " + Decimal(|input|));
    }
    for i := 0 to |input|
      invariant forall k | 0 <= k < i :: judgeCase(input[k], attempt[k]) == ""
    {
      var e := judgeCase(input[i], attempt[i]);
      if e != "" {
        var message := "Case #" + Decimal(i + 1) + ": " + e;
        assert message[0] == 'C';
        return Ok(message);
      }
    }
    return Ok("");
  }

  // ---------------------------------------------------------------------
  // Fences
  // ---------------------------------------------------------------------

  type Pt = (int, int)

  datatype Seg = Seg(p: Pt, q: Pt)

  function Sub(a: Pt, b: Pt): Pt
  {
    (a.0 - b.0, a.1 - b.1)
  }

  function Cross(a: Pt, b: Pt): int
  {
    a.0 * b.1 - a.1 * b.0
  }

  predicate PtLess(a: Pt, b: Pt)
  {
    if a.0 != b.0 then a.0 < b.0 else a.1 < b.1
  }

  predicate SharesEndpoint(s: Seg, t: Seg)
  {
    s.p == t.p || s.p == t.q || s.q == t.p || s.q == t.q
  }

  /** Whether two fences cross: each one's endpoints lie on different sides of the other's line. */
  predicate Inter(s: Seg, t: Seg)
  {
    if SharesEndpoint(s, t) then false
    else
      ((Cross(Sub(s.q, s.p), Sub(t.q, s.p)) < 0) != (Cross(Sub(s.q, s.p), Sub(t.p, s.p)) < 0)) &&
      ((Cross(Sub(t.q, t.p), Sub(s.q, t.p)) < 0) != (Cross(Sub(t.q, t.p), Sub(s.p, t.p)) < 0))
  }

  /** Fences that meet at a pole do not cross, and crossing does not depend on which fence is asked. */
  lemma InterProperties(s: Seg, t: Seg)
    ensures SharesEndpoint(s, t) ==> !Inter(s, t)
    ensures Inter(s, t) == Inter(t, s)
  {
  }

  /** The fence with its lesser endpoint first. */
  function Order(s: Seg): (r: Seg)
    ensures r == s || r == Seg(s.q, s.p)
    ensures !PtLess(r.q, r.p)
  {
    if PtLess(s.q, s.p) then Seg(s.q, s.p) else s
  }

  /** A fence and the same fence given the other way round are one fence once ordered. */
  lemma OrderReverse(s: Seg)
    ensures Order(Seg(s.q, s.p)) == Order(s)
    ensures Order(Order(s)) == Order(s)
  {
  }

  /** A fence given as two pole numbers, counting from 1. */
  datatype Poles = Poles(i: int, j: int)

  predicate PolesIn(f: Poles, n: nat)
  {
    1 <= f.i <= n && 1 <= f.j <= n
  }

  predicate AllPolesIn(fs: seq<Poles>, n: nat)
  {
    forall k | 0 <= k < |fs| :: PolesIn(fs[k], n)
  }

  function Fence(pts: seq<Pt>, f: Poles): Seg
    requires PolesIn(f, |pts|)
  {
    Seg(pts[f.i - 1], pts[f.j - 1])
  }

  /** The fences given by pole numbers, each with its lesser endpoint first. */
  function OrderedFences(pts: seq<Pt>, fs: seq<Poles>): (r: seq<Seg>)
    requires AllPolesIn(fs, |pts|)
    ensures |r| == |fs|
  {
    seq(|fs|, k requires 0 <= k < |fs| => Order(Fence(pts, fs[k])))
  }

  /**
   * The input's fences then the attempt's, as segments with their lesser
   * endpoint first; attempt poles outside 1..n and repeated fences are errors.
   * The input's own poles are trusted to be in range.
   */
  method GetFences(pts: seq<Pt>, given: seq<Poles>, attempt: seq<Poles>) returns (r: Result<seq<Seg>, string>)
    requires AllPolesIn(given, |pts|)
    ensures r.Ok? <==> AllPolesIn(attempt, |pts|) && Distinct(OrderedFences(pts, given + attempt))
    ensures r.Ok? ==> r.value == OrderedFences(pts, given + attempt)
    ensures r.Err? ==> r.error == if AllPolesIn(attempt, |pts|) then "Repeated fence" else "Fence endpoint out of range"
  {
    var npts := |pts|;
    var fences: seq<Seg> := [];
    for k := 0 to |given|
      invariant |fences| == k && forall m {:trigger fences[m]} | 0 <= m < k :: fences[m] == Fence(pts, given[m])
    {
      fences := fences + [Fence(pts, given[k])];
    }
    for k := 0 to |attempt|
      invariant AllPolesIn(attempt[..k], npts)
      invariant |fences| == |given| + k
      invariant forall m {:trigger fences[m]} | 0 <= m < |given| :: fences[m] == Fence(pts, given[m])
      invariant forall m | 0 <= m < k :: fences[|given| + m] == Fence(pts, attempt[m])
    {
      var f := attempt[k];
      if f.i < 1 || f.i > npts || f.j < 1 || f.j > npts {
        assert !PolesIn(attempt[k], npts);
        return Err("Fence endpoint out of range");
      }
      assert attempt[..k + 1] == attempt[..k] + [f];
      fences := fences + [Fence(pts, f)];
    }
    assert attempt[..|attempt|] == attempt;
    ghost var all := given + attempt;
    for k := 0 to |fences|
      invariant |fences| == |all|
      invariant forall m {:trigger fences[m]} | 0 <= m < k :: fences[m] == Order(Fence(pts, all[m]))
      invariant forall m {:trigger fences[m]} | k <= m < |fences| :: fences[m] == Fence(pts, all[m])
    {
      fences := fences[k := Order(fences[k])];
    }
    assert fences == OrderedFences(pts, all);
    DistinctCard(fences);
    if |set f: Seg | f in fences| != |fences| {
      return Err("Repeated fence");
    }
    return Ok(fences);
  }
}
