/**
 * The 3D Printing judge (Code Jam 2022, qualification round).  Three
 * printers each hold some units of cyan, magenta, yellow and black ink; an
 * answer names four amounts that every printer can supply and that add up
 * to 10^6 units, or says the case is impossible.  The judge reports its
 * verdict as a line `status_message: '...'` whose text is escaped by
 * ProtoEscape.
 */
module ThreeDPrinting {
  import opened Wrappers
  import opened JudgeUtils
  import opened Sequences
  import FenceDesign

  const Printers: nat := 3
  const Colors: nat := 4
  const Total: int := 1000000

  const WrongTokenCount := "Wrong number of tokens in case output"
  const NotStartingWithCase := "Case output not starting with Case"
  const BadCaseNumber := "Case number not formatted correctly or not correct number"
  const WrongWord := "Wrong word in output"
  const OutOfRange := "Integer out of range"
  const TooMuchInk := "Too much ink"
  const WrongTotal := "Wrong total amount of ink"
  const ClaimedImpossible := "Claimed impossible but it was possible"

  // ---------------------------------------------------------------------
  // Escaping the verdict message
  // ---------------------------------------------------------------------

  /** A C++ `char` on the judge's platform: a signed byte. */
  type SChar = c: int | -128 <= c <= 127

  /**
   * How the source escapes one character: a newline and the two quotes get
   * a backslash, characters from 32 up are kept, and the rest are written as
   * a backslash and three numbers: the character shifted right by six, then
   * bits 3-4 and bits 0-1 (the shifts are arithmetic, so they floor).
   */
  function EscapeChar(c: SChar): string
  {
    if c == '\n' as int then "\\n"
    else if c == '\'' as int then "\\'"
    else if c == '"' as int then "\\\""
    else if 32 <= c then [c as char]
    else "\\" + Decimal(c / 64) + Decimal((c / 8) % 4) + Decimal(c % 4)
  }

  /** The escaped message: each character's escape, in order. */
  function Escaped(msg: seq<SChar>): string
  {
    if msg == [] then "" else Escaped(msg[..|msg| - 1]) + EscapeChar(msg[|msg| - 1])
  }

  /** The source's loop: append each character's escape. */
  method ProtoEscape(msg: seq<SChar>) returns (r: string)
    ensures r == Escaped(msg)
  {
    r := "";
    for i := 0 to |msg|
      invariant r == Escaped(msg[..i])
    {
      assert msg[..i + 1][..i] == msg[..i];
      r := r + EscapeChar(msg[i]);
    }
    assert msg[..|msg|] == msg;
  }

  /** Printable ASCII: the codes 32 to 127. */
  predicate Printable(c: char)
  {
    32 <= c as int <= 127
  }

  predicate IsQuote(c: char)
  {
    c == '\'' || c == '"'
  }

  /** A string that can sit between single quotes on one line: printable, and every quote escaped. */
  predicate Quotable(s: string)
  {
    (forall i | 0 <= i < |s| :: Printable(s[i])) &&
    (forall i | 0 <= i < |s| && IsQuote(s[i]) :: i > 0 && s[i - 1] == '\\')
  }

  lemma DecimalPrintable(n: int)
    ensures forall i | 0 <= i < |Decimal(n)| :: Printable(Decimal(n)[i]) && !IsQuote(Decimal(n)[i])
  {
    var d := NatDigits(if n < 0 then -n else n);
    AllDigitsIff(d);
  }

  lemma QuotableConcat(a: string, b: string)
    requires Quotable(a) && Quotable(b)
    ensures Quotable(a + b)
  {
    var s := a + b;
    forall i | 0 <= i < |s| && IsQuote(s[i])
      ensures i > 0 && s[i - 1] == '\\'
    {
      if i >= |a| {
        assert s[i] == b[i - |a|];
        assert s[i - 1] == b[i - |a| - 1];
      } else {
        assert s[i] == a[i];
      }
    }
  }

  lemma EscapeCharQuotable(c: SChar)
    ensures Quotable(EscapeChar(c))
  {
    if c != '\n' as int && c != '\'' as int && c != '"' as int && c < 32 {
      DecimalPrintable(c / 64);
      DecimalPrintable((c / 8) % 4);
      DecimalPrintable(c % 4);
      var e := EscapeChar(c);
      var x, y, z := Decimal(c / 64), Decimal((c / 8) % 4), Decimal(c % 4);
      assert e == "\\" + x + y + z;
      forall i | 0 <= i < |e|
        ensures Printable(e[i]) && !IsQuote(e[i])
      {
        if i == 0 {
        } else if i < 1 + |x| {
          assert e[i] == x[i - 1];
        } else if i < 1 + |x| + |y| {
          assert e[i] == y[i - 1 - |x|];
        } else {
          assert e[i] == z[i - 1 - |x| - |y|];
        }
      }
    }
  }

  /**
   * Every character of the escaped message has a code from 32 to 127, so
   * no newline is left, and every quote has a backslash just before it.
   * That backslash need not escape the quote: the message's own
   * backslashes are copied as they are (see EscapedBackslashBreaks).
   */
  lemma {:induction false} EscapedQuotable(msg: seq<SChar>)
    ensures Quotable(Escaped(msg))
    decreases |msg|
  {
    if msg != [] {
      EscapedQuotable(msg[..|msg| - 1]);
      EscapeCharQuotable(msg[|msg| - 1]);
      QuotableConcat(Escaped(msg[..|msg| - 1]), EscapeChar(msg[|msg| - 1]));
    }
  }

  /** The three characters the source singles out come out as a backslash and a letter or the quote. */
  lemma EscapesSpecials()
    ensures Escaped(['\n' as int]) == "\\n"
    ensures Escaped(['\'' as int]) == "\\'"
    ensures Escaped(['"' as int]) == "\\\""
  {
    assert ['\n' as int][..0] == [];
    assert ['\'' as int][..0] == [];
    assert ['"' as int][..0] == [];
  }

  /**
   * The numbered escape masks its last two digits with 3 rather than 7, so
   * it is not an octal escape: the characters 0 and 4 are both written
   * "\000".
   */
  lemma EscapeCollides()
    ensures EscapeChar(0) == EscapeChar(4) == "\\000"
  {
  }

  /** The intended escape: three octal digits of the unsigned byte. */
  function OctalEscapeChar(c: SChar): (e: string)
  {
    if c == '\n' as int then "\\n"
    else if c == '\'' as int then "\\'"
    else if c == '"' as int then "\\\""
    else if 32 <= c then [c as char]
    else
      var u := c % 256;
      "\\" + [DigitChar(u / 64), DigitChar((u / 8) % 8), DigitChar(u % 8)]
  }

  /** A byte is the value of its three octal digits. */
  lemma OctalDigits(u: int)
    requires 0 <= u < 256
    ensures u == 64 * (u / 64) + 8 * ((u / 8) % 8) + u % 8
  {
    var q := u / 8;
    assert u == 8 * q + u % 8;
    assert q == 8 * (q / 8) + q % 8;
    assert q / 8 == u / 64;
  }

  /** A signed byte is recovered from its unsigned value. */
  lemma SignedByte(c: SChar)
    ensures c == if c % 256 < 128 then c % 256 else c % 256 - 256
  {
  }

  /** The numbered escape of a control character determines its byte. */
  lemma OctalEscapeByte(a: SChar, b: SChar)
    requires a < 32 && b < 32
    requires [DigitChar((a % 256) / 64), DigitChar(((a % 256) / 8) % 8), DigitChar((a % 256) % 8)]
          == [DigitChar((b % 256) / 64), DigitChar(((b % 256) / 8) % 8), DigitChar((b % 256) % 8)]
    ensures a == b
  {
    var ua, ub := a % 256, b % 256;
    assert ua / 64 == ub / 64 by {
      assert DigitChar(ua / 64) == DigitChar(ub / 64);
    }
    assert (ua / 8) % 8 == (ub / 8) % 8 by {
      assert DigitChar((ua / 8) % 8) == DigitChar((ub / 8) % 8);
    }
    assert ua % 8 == ub % 8 by {
      assert DigitChar(ua % 8) == DigitChar(ub % 8);
    }
    OctalDigits(ua);
    OctalDigits(ub);
    SignedByte(a);
    SignedByte(b);
  }

  /** Distinct characters get distinct intended escapes. */
  lemma OctalEscapeInjective(a: SChar, b: SChar)
    requires OctalEscapeChar(a) == OctalEscapeChar(b)
    ensures a == b
  {
    var e := OctalEscapeChar(a);
    var plainA := a == '\n' as int || a == '\'' as int || a == '"' as int || 32 <= a;
    var plainB := b == '\n' as int || b == '\'' as int || b == '"' as int || 32 <= b;
    assert |e| == 4 <==> !plainA;
    assert |OctalEscapeChar(b)| == 4 <==> !plainB;
    if !plainA {
      assert e[1..] == OctalEscapeChar(b)[1..];
      OctalEscapeByte(a, b);
    } else {
      assert e[|e| - 1] == OctalEscapeChar(b)[|e| - 1];
    }
  }

  // ---------------------------------------------------------------------
  // Reading the quoted status text back
  // ---------------------------------------------------------------------

  predicate IsOctalDigit(c: char)
  {
    '0' <= c <= '7'
  }

  /** The byte three octal digits name, as a signed char; none above 255. */
  function OctalByte(a: char, b: char, c: char): (r: Option<SChar>)
    requires IsOctalDigit(a) && IsOctalDigit(b) && IsOctalDigit(c)
  {
    var u := 64 * (a as int - '0' as int) + 8 * (b as int - '0' as int) + (c as int - '0' as int);
    if u >= 256 then None else Some(if u < 128 then u else u - 256)
  }

  function Prepend(c: SChar, r: Option<seq<SChar>>): Option<seq<SChar>>
  {
    if r.None? then None else Some([c] + r.value)
  }

  /**
   * How the text between the single quotes of the status line is read: a
   * backslash takes the next character (n for a newline, a quote or a
   * backslash for itself) or three octal digits; any other printable
   * character stands for itself.  A raw single quote ends the text, so
   * reading it there fails, as does a raw control character or a lone
   * backslash at the end.
   */
  function ReadQuoted(t: string): (r: Option<seq<SChar>>)
    decreases |t|
  {
    if t == [] then Some([])
    else if t[0] == '\\' then
      if |t| < 2 then None
      else if t[1] == 'n' then Prepend('\n' as int, ReadQuoted(t[2..]))
      else if t[1] == '\'' || t[1] == '"' || t[1] == '\\' then Prepend(t[1] as int, ReadQuoted(t[2..]))
      else if |t| >= 4 && IsOctalDigit(t[1]) && IsOctalDigit(t[2]) && IsOctalDigit(t[3]) then
        match OctalByte(t[1], t[2], t[3])
        case None => None
        case Some(c) => Prepend(c, ReadQuoted(t[4..]))
      else None
    else if t[0] == '\'' || !Printable(t[0]) then None
    else Prepend(t[0] as int, ReadQuoted(t[1..]))
  }

  /**
   * The source copies a backslash unescaped.  The message backslash-quote
   * is written as two backslashes and a quote, which read as one backslash
   * and then a quote that ends the text; a message that is one backslash
   * leaves a backslash that would escape the closing quote.
   */
  lemma EscapedBackslashBreaks()
    ensures Escaped(['\\' as int, '\'' as int]) == "\\\\'"
    ensures ReadQuoted(Escaped(['\\' as int, '\'' as int])) == None
    ensures ReadQuoted(Escaped(['\\' as int])) == None
  {
    assert ['\\' as int, '\'' as int][..1] == ['\\' as int];
    assert ['\\' as int][..0] == [];
    assert EscapeChar('\\' as int) == "\\";
    assert Escaped(['\\' as int]) == "\\";
    assert EscapeChar('\'' as int) == "\\'";
    var t := "\\\\'";
    assert t == "\\" + "\\'";
    assert t[2..] == "'";
  }

  /** The intended escape of one character: a backslash doubled, otherwise the octal escape. */
  function FixedEscapeChar(c: SChar): string
  {
    if c == '\\' as int then "\\\\" else OctalEscapeChar(c)
  }

  /** The intended escaped message: each character's intended escape, in order. */
  function FixedEscaped(msg: seq<SChar>): string
  {
    if msg == [] then "" else FixedEscapeChar(msg[0]) + FixedEscaped(msg[1..])
  }

  /** The octal escape of a control character reads back as that character. */
  lemma ReadOctalEscape(c: SChar, rest: string)
    requires c < 32 && c != '\n' as int
    ensures ReadQuoted(FixedEscapeChar(c) + rest) == Prepend(c, ReadQuoted(rest))
  {
    var u := c % 256;
    var a, b, d := DigitChar(u / 64), DigitChar((u / 8) % 8), DigitChar(u % 8);
    var t := FixedEscapeChar(c) + rest;
    assert FixedEscapeChar(c) == "\\" + [a, b, d];
    assert t[0] == '\\' && t[1] == a && t[2] == b && t[3] == d && t[4..] == rest;
    OctalDigits(u);
    SignedByte(c);
    assert OctalByte(a, b, d) == Some(c);
  }

  /** One character's intended escape reads back as that character, whatever follows it. */
  lemma ReadFixedEscapeChar(c: SChar, rest: string)
    ensures ReadQuoted(FixedEscapeChar(c) + rest) == Prepend(c, ReadQuoted(rest))
  {
    var t := FixedEscapeChar(c) + rest;
    if c == '\\' as int || c == '\n' as int || c == '\'' as int || c == '"' as int {
      assert |FixedEscapeChar(c)| == 2 && t[2..] == rest;
    } else if 32 <= c {
      assert t[0] == c as char && t[1..] == rest;
    } else {
      ReadOctalEscape(c, rest);
    }
  }

  /** Reading the intended escaped message between the quotes gives the message back. */
  lemma {:induction false} FixedEscapedReadsBack(msg: seq<SChar>)
    ensures ReadQuoted(FixedEscaped(msg)) == Some(msg)
    decreases |msg|
  {
    if msg != [] {
      FixedEscapedReadsBack(msg[1..]);
      ReadFixedEscapeChar(msg[0], FixedEscaped(msg[1..]));
      assert [msg[0]] + msg[1..] == msg;
    }
  }

  // ---------------------------------------------------------------------
  // Reading an answer
  // ---------------------------------------------------------------------

  /**
   * One amount as the source reads it: ParseInt, which lets "-" through as
   * 0, then the range [0, 10^6].
   */
  function Amount(s: string): (r: Result<int, string>)
    ensures r.Ok? ==> 0 <= r.value <= Total
  {
    if s == "-" then Ok(0)
    else match FenceDesign.IntInRange(s)
      case Err(e) => Err(e)
      case Ok(n) => if n < 0 || n > Total then Err(OutOfRange) else Ok(n)
  }

  /** The amounts of a line, stopping at the first refused token. */
  function Amounts(ts: seq<string>): (r: Result<seq<int>, string>)
    ensures r.Ok? ==> |r.value| == |ts|
  {
    if ts == [] then Ok([])
    else match Amounts(ts[..|ts| - 1])
      case Err(e) => Err(e)
      case Ok(v) =>
        match Amount(ts[|ts| - 1])
          case Err(e) => Err(e)
          case Ok(x) => Ok(v + [x])
  }

  /**
   * The answer on a case's line of (lower-cased) tokens: "case", "#k:" and
   * either "impossible", which gives no amounts, or four amounts.
   */
  function CaseOutputOf(tokens: seq<string>, caseIdx: int): Result<seq<int>, string>
  {
    if |tokens| != 3 && |tokens| != 6 then Err(WrongTokenCount)
    else if FenceDesign.Lowercase(tokens[0]) != "case" then Err(NotStartingWithCase)
    else if tokens[1] != "#" + Decimal(caseIdx) + ":" then Err(BadCaseNumber)
    else if |tokens| == 3 then
      if FenceDesign.Lowercase(tokens[2]) != "impossible" then Err(WrongWord) else Ok([])
    else Amounts(tokens[2..6])
  }

  /** The source's reading of a case line, a loop over the four amounts. */
  method ParseCaseOutput(tokens: seq<string>, caseIdx: int) returns (r: Result<seq<int>, string>)
    ensures r == CaseOutputOf(tokens, caseIdx)
  {
    if |tokens| != 3 && |tokens| != 6 {
      return Err(WrongTokenCount);
    }
    if FenceDesign.Lowercase(tokens[0]) != "case" {
      return Err(NotStartingWithCase);
    }
    if tokens[1] != "#" + Decimal(caseIdx) + ":" {
      return Err(BadCaseNumber);
    }
    if |tokens| == 3 {
      if FenceDesign.Lowercase(tokens[2]) != "impossible" {
        return Err(WrongWord);
      }
      return Ok([]);
    }
    var amounts := tokens[2..6];
    var v: seq<int> := [];
    for i := 0 to Colors
      invariant Amounts(amounts[..i]) == Ok(v)
    {
      assert amounts[..i + 1][..i] == amounts[..i];
      var a := Amount(amounts[i]);
      if a.Err? {
        AmountsErrStays(amounts, i + 1);
        assert amounts[..Colors] == amounts;
        return Err(a.error);
      }
      v := v + [a.value];
    }
    assert amounts[..Colors] == amounts;
    r := Ok(v);
  }

  /** Once a prefix of the amounts is refused, so is every longer prefix, with the same message. */
  lemma {:induction false} AmountsErrStays(ts: seq<string>, k: nat)
    requires k <= |ts| && Amounts(ts[..k]).Err?
    ensures Amounts(ts) == Amounts(ts[..k])
    decreases |ts| - k
  {
    if k < |ts| {
      assert ts[..k + 1][..k] == ts[..k];
      AmountsErrStays(ts, k + 1);
    } else {
      assert ts[..k] == ts;
    }
  }

  /**
   * A line of amounts is read exactly when every token is "-" or an integer
   * in [0, 10^6], and then each amount is its token's value ("-" reading as 0).
   */
  lemma {:induction false} AmountsAccepted(ts: seq<string>)
    ensures Amounts(ts).Ok? <==>
      forall i | 0 <= i < |ts| :: ts[i] == "-" || (FenceDesign.IntInRange(ts[i]).Ok? && 0 <= FenceDesign.IntInRange(ts[i]).value <= Total)
    ensures Amounts(ts).Ok? ==> forall i | 0 <= i < |ts| ::
      Amounts(ts).value[i] == if ts[i] == "-" then 0 else FenceDesign.IntInRange(ts[i]).value
    decreases |ts|
  {
    if ts != [] {
      var init := ts[..|ts| - 1];
      AmountsAccepted(init);
      assert forall i | 0 <= i < |init| :: init[i] == ts[i];
    }
  }

  /** The line a contestant writes for case k with the given amounts. */
  function AnswerLine(caseIdx: int, amounts: seq<int>): seq<string>
  {
    ["case", "#" + Decimal(caseIdx) + ":"] + seq(|amounts|, i requires 0 <= i < |amounts| => Decimal(amounts[i]))
  }

  /** Writing four amounts in range and reading the line back gives them. */
  lemma AnswerLineRoundTrip(caseIdx: int, amounts: seq<int>)
    requires |amounts| == Colors && forall i | 0 <= i < Colors :: 0 <= amounts[i] <= Total
    ensures CaseOutputOf(AnswerLine(caseIdx, amounts), caseIdx) == Ok(amounts)
  {
    var line := AnswerLine(caseIdx, amounts);
    var ts := line[2..6];
    forall i | 0 <= i < |ts|
      ensures ts[i] != "-" && FenceDesign.IntInRange(ts[i]) == Ok(amounts[i])
    {
      assert ts[i] == Decimal(amounts[i]);
      assert NatDigits(amounts[i])[0] != '-' by {
        AllDigitsIff(NatDigits(amounts[i]));
      }
      FenceDesign.IntInRangeDecimal(amounts[i]);
    }
    AmountsAccepted(ts);
    assert Amounts(ts).value == amounts;
    LowercaseKeeps("case");
  }

  /** Writing "impossible" for case k and reading it back gives no amounts. */
  lemma ImpossibleLineRoundTrip(caseIdx: int)
    ensures CaseOutputOf(["case", "#" + Decimal(caseIdx) + ":", "impossible"], caseIdx) == Ok([])
  {
    LowercaseKeeps("case");
    LowercaseKeeps("impossible");
  }

  /** Lower-casing leaves a string without capitals alone. */
  lemma LowercaseKeeps(s: string)
    requires forall i | 0 <= i < |s| :: !('A' <= s[i] <= 'Z')
    ensures FenceDesign.Lowercase(s) == s
  {
    var l := FenceDesign.Lowercase(s);
    assert forall i | 0 <= i < |s| :: l[i] == s[i];
  }

  // ---------------------------------------------------------------------
  // Checking an answer
  // ---------------------------------------------------------------------

  /** The ink a case offers: three printers by four colours. */
  predicate Supplies(input: seq<seq<int>>)
  {
    |input| == Printers && forall i | 0 <= i < Printers :: |input[i]| == Colors
  }

  /** Some colour asks for more than some printer holds. */
  predicate Excess(input: seq<seq<int>>, output: seq<int>)
    requires Supplies(input) && |output| == Colors
  {
    exists j, i | 0 <= j < Colors && 0 <= i < Printers :: output[j] > input[i][j]
  }

  /** An answer every printer can print, with 10^6 units in all. */
  predicate Fits(input: seq<seq<int>>, output: seq<int>)
    requires Supplies(input) && |output| == Colors
  {
    !Excess(input, output) && Sum(output) == Total
  }

  /**
   * The source's check of four amounts: "Too much ink" exactly when some
   * colour exceeds some printer's supply, otherwise a wrong total unless
   * the amounts add up to 10^6.
   */
  method CheckNumbers(input: seq<seq<int>>, output: seq<int>) returns (r: string)
    requires Supplies(input) && |output| == Colors
    ensures r == TooMuchInk <==> Excess(input, output)
    ensures r == WrongTotal <==> !Excess(input, output) && Sum(output) != Total
    ensures r == "" <==> Fits(input, output)
  {
    var sum := 0;
    for j := 0 to Colors
      invariant sum == Sum(output[..j])
      invariant forall j', i | 0 <= j' < j && 0 <= i < Printers :: output[j'] <= input[i][j']
    {
      for i := 0 to Printers
        invariant forall i' | 0 <= i' < i :: output[j] <= input[i'][j]
      {
        if output[j] > input[i][j] {
          return TooMuchInk;
        }
      }
      assert output[..j + 1][..j] == output[..j];
      sum := sum + output[j];
    }
    assert output[..Colors] == output;
    if sum != Total {
      return WrongTotal;
    }
    return "";
  }

  /**
   * The verdict on one case: an answer with amounts is checked; "impossible"
   * is right exactly when the judge's own answer is "impossible" too.
   */
  method JudgeCase(input: seq<seq<int>>, attempt: seq<int>, correct: seq<int>) returns (r: string)
    requires Supplies(input) && (attempt == [] || |attempt| == Colors)
    ensures attempt != [] ==> (r == "" <==> Fits(input, attempt))
    ensures attempt != [] && r != "" ==> r == TooMuchInk || r == WrongTotal
    ensures attempt == [] ==> (r == "" <==> correct == [])
    ensures attempt == [] && correct != [] ==> r == ClaimedImpossible
  {
    if attempt != [] {
      r := CheckNumbers(input, attempt);
      return;
    }
    if correct == [] {
      return "";
    }
    return ClaimedImpossible;
  }

  /** The least a printer holds of each colour. */
  function Mins(input: seq<seq<int>>): (m: seq<int>)
    requires Supplies(input)
    ensures |m| == Colors
    ensures forall j, i | 0 <= j < Colors && 0 <= i < Printers :: m[j] <= input[i][j]
  {
    seq(Colors, j requires 0 <= j < Colors =>
      var a := if input[0][j] < input[1][j] then input[0][j] else input[1][j];
      if a < input[2][j] then a else input[2][j])
  }

  lemma {:induction false} SumMonotone(a: seq<int>, b: seq<int>)
    requires |a| == |b| && forall k | 0 <= k < |a| :: a[k] <= b[k]
    ensures Sum(a) <= Sum(b)
    decreases |a|
  {
    if a != [] {
      SumMonotone(a[..|a| - 1], b[..|b| - 1]);
    }
  }

  /**
   * An accepted answer exists only if the least supplies of the four
   * colours add up to at least 10^6 units.
   */
  lemma FitsNeedsInk(input: seq<seq<int>>, output: seq<int>)
    requires Supplies(input) && |output| == Colors && Fits(input, output)
    ensures Sum(Mins(input)) >= Total
  {
    var m := Mins(input);
    forall k | 0 <= k < Colors
      ensures output[k] <= m[k]
    {
      if input[0][k] < input[1][k] {
        assert !(output[k] > input[0][k]);
      } else {
        assert !(output[k] > input[1][k]);
      }
      assert !(output[k] > input[2][k]);
    }
    SumMonotone(output, m);
  }
}
