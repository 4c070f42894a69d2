/**
 * The Hacked Exam judge (Code Jam 2021, round 1A).  Its own 128-bit integer
 * printer and reader, the one-line answer format, and the comparison of an
 * answer with the judge's optimal answer, in which '?' marks a question
 * that may be answered either way.
 */
module HackedExam {
  import opened Wrappers
  import opened JudgeUtils
  import opened Sequences
  import FenceDesign

  // ---------------------------------------------------------------------
  // Strint128
  // ---------------------------------------------------------------------

  lemma ReverseAppend(s: string, c: char)
    ensures Reverse(s + [c]) == [c] + Reverse(s)
  {
    assert forall i | 0 <= i < |s| + 1 :: Reverse(s + [c])[i] == ([c] + Reverse(s))[i];
  }

  /** The last digit of m split off its canonical digits. */
  lemma NatDigitsStep(m: nat)
    requires m >= 10
    ensures NatDigits(m) == NatDigits(m / 10) + [DigitChar(m % 10)]
  {
  }

  /** One round of Strint128's loop moves the last digit of m to the end of the reversed digits. */
  lemma NatStringStep(n: nat, m: nat, backwards: string)
    requires NatDigits(n) == NatDigits(m) + Reverse(backwards)
    ensures var b := backwards + [DigitChar(m % 10)];
      (m / 10 > 0 ==> NatDigits(n) == NatDigits(m / 10) + Reverse(b)) &&
      (m / 10 == 0 ==> NatDigits(n) == Reverse(b))
  {
    ReverseAppend(backwards, DigitChar(m % 10));
    if m >= 10 {
      NatStringMore(n, m, backwards);
    } else {
      NatStringLast(n, m, backwards);
    }
  }

  lemma NatStringMore(n: nat, m: nat, backwards: string)
    requires m >= 10 && NatDigits(n) == NatDigits(m) + Reverse(backwards)
    ensures NatDigits(n) == NatDigits(m / 10) + ([DigitChar(m % 10)] + Reverse(backwards))
  {
    NatDigitsStep(m);
    var d := DigitChar(m % 10);
    assert (NatDigits(m / 10) + [d]) + Reverse(backwards) == NatDigits(m / 10) + ([d] + Reverse(backwards));
  }

  lemma NatStringLast(n: nat, m: nat, backwards: string)
    requires m < 10 && NatDigits(n) == NatDigits(m) + Reverse(backwards)
    ensures NatDigits(n) == [DigitChar(m % 10)] + Reverse(backwards)
  {
    assert m % 10 == m;
    assert NatDigits(m) == [DigitChar(m)];
  }

  /** The do-while loop of Strint128: digits produced last-first by repeated division, then reversed. */
  method NatString(n: nat) returns (s: string)
    ensures s == NatDigits(n)
  {
    var backwards := [];
    var m := n;
    assert NatDigits(n) == NatDigits(m) + Reverse(backwards);
    NatStringStep(n, m, backwards);
    backwards := backwards + [DigitChar(m % 10)];
    m := m / 10;
    while m > 0
      invariant m > 0 ==> NatDigits(n) == NatDigits(m) + Reverse(backwards)
      invariant m == 0 ==> NatDigits(n) == Reverse(backwards)
    {
      NatStringStep(n, m, backwards);
      backwards := backwards + [DigitChar(m % 10)];
      m := m / 10;
    }
    s := Reverse(backwards);
  }

  /** The source's Strint128: a sign for negatives, then the digits of the magnitude. */
  method Strint128(n: int) returns (s: string)
    ensures s == Decimal(n)
  {
    if n < 0 {
      var t := NatString(-n);
      return "-" + t;
    }
    s := NatString(n);
  }

  // ---------------------------------------------------------------------
  // ParseInt128
  // ---------------------------------------------------------------------

  /** 10^38, the largest magnitude ParseInt128 accepts. */
  const Limit: int := Pow10(38)

  /** What ParseInt128 promises: an integer token in [-10^38, 10^38], and its value. */
  function IntInRange(s: string): Result<int, string>
  {
    if FenceDesign.IntToken(s) && -Limit <= FenceDesign.TokenValue(s) <= Limit
    then Ok(FenceDesign.TokenValue(s))
    else Err(FenceDesign.NotAnInteger(s))
  }

  /** A one and k zeros is 10^k. */
  lemma PowerDigits(k: nat)
    ensures AllDigits("1" + Zeros(k)) && DigitsValue("1" + Zeros(k)) == Pow10(k)
  {
    assert AllDigits("1") by {
      assert "1"[..0] == [];
    }
    assert DigitsValue("1") == 1 by {
      assert "1"[..0] == [];
    }
    DigitsConcat("1", Zeros(k));
    ZerosValue(k);
  }

  /** Digits without leading zeros are at most 10^k exactly when there are at most k of them or they spell 10^k. */
  lemma RangeByLength(d: string, k: nat)
    requires k >= 1 && AllDigits(d) && |d| >= 1 && (|d| > 1 ==> d[0] != '0')
    ensures DigitsValue(d) <= Pow10(k) <==> |d| <= k || d == "1" + Zeros(k)
  {
    var one := "1" + Zeros(k);
    PowerDigits(k);
    if |d| <= k {
      DigitsBelow(d);
      Pow10Monotone(|d|, k);
    } else {
      NoLeadingZeroValue(d);
      Pow10Monotone(k, |d| - 1);
      if |d| == k + 1 {
        if DigitsValue(d) == Pow10(k) {
          CanonicalDigits(d);
          assert one[0] == '1';
          CanonicalDigits(one);
        }
      } else {
        Pow10Monotone(k + 1, |d| - 1);
      }
    }
  }

  /** A negative stripped token spells a magnitude of at most 10^38 exactly when the length checks pass. */
  lemma NegativeLengthChecks(d: string, one: string)
    requires AllDigits(d) && |d| >= 1 && (|d| > 1 ==> d[0] != '0')
    requires one == "1" + Zeros(38)
    ensures DigitsValue(d) <= Limit <==> !(|"-" + d| > 40 || (|"-" + d| == 40 && "-" + d != "-" + one))
  {
    RangeByLength(d, 38);
    assert ("-" + d)[1..] == d;
    assert ("-" + one)[1..] == one;
  }

  /** A non-negative stripped token spells a number of at most 10^38 exactly when the length checks pass. */
  lemma PositiveLengthChecks(d: string, one: string)
    requires AllDigits(d) && |d| >= 1 && (|d| > 1 ==> d[0] != '0')
    requires one == "1" + Zeros(38)
    ensures DigitsValue(d) <= Limit <==> !(|d| > 40 || |d| == 40 || (|d| == 39 && d != one))
  {
    RangeByLength(d, 38);
  }

  /** The stripped token, sign included, spells a magnitude of at most 10^38 exactly when the length checks pass. */
  lemma LengthChecks(negative: bool, d: string)
    requires AllDigits(d) && |d| >= 1 && (|d| > 1 ==> d[0] != '0')
    ensures var s := (if negative then "-" else "") + d;
      DigitsValue(d) <= Limit <==>
        !(|s| > 40 || (|s| == 40 && s != "-1" + Zeros(38)) || (|s| == 39 && s[0] != '-' && s != "1" + Zeros(38)))
  {
    var one := "1" + Zeros(38);
    assert "-1" + Zeros(38) == "-" + one;
    if negative {
      NegativeLengthChecks(d, one);
    } else {
      PositiveLengthChecks(d, one);
      AllDigitsIff(d);
      assert ("-" + one)[0] == '-';
    }
  }

  /** The length checks of ParseInt128 on the stripped token decide exactly the range. */
  lemma ParseInt128Checks(ss: string, start: nat, firstDigit: nat)
    requires ss != "-" && |ss| >= 1 && (ss[0] == '-' || IsDigit(ss[0]))
    requires forall k | 1 <= k < |ss| :: IsDigit(ss[k])
    requires start == (if ss[0] == '-' then 1 else 0)
    requires start <= firstDigit < |ss|
    requires forall k | start <= k < firstDigit :: ss[k] == '0'
    requires firstDigit == |ss| - 1 || ss[firstDigit] != '0'
    ensures FenceDesign.IntToken(ss) && AllDigits(ss[firstDigit..])
    ensures FenceDesign.TokenValue(ss) ==
      if ss[0] == '-' then -(DigitsValue(ss[firstDigit..]) as int) else DigitsValue(ss[firstDigit..])
    ensures var s := (if ss[0] == '-' then "-" else "") + ss[firstDigit..];
      (-Limit <= FenceDesign.TokenValue(ss) <= Limit) <==>
        !(|s| > 40 || (|s| == 40 && s != "-1" + Zeros(38)) || (|s| == 39 && s[0] != '-' && s != "1" + Zeros(38)))
  {
    var d := ss[firstDigit..];
    var body := ss[start..];
    AllDigitsIff(d);
    assert body == Zeros(firstDigit - start) + d;
    LeadingZeros(firstDigit - start, d);
    LengthChecks(ss[0] == '-', d);
    if ss[0] == '-' {
      assert ss[1..] == body;
      AllDigitsIff(ss[1..]);
    } else {
      assert ss == body;
      AllDigitsIff(ss);
    }
  }

  /** The digit loop of ParseInt128: r = r * 10 + digit, left to right. */
  method ReadDigits(digits: string) returns (r: nat)
    requires AllDigits(digits)
    ensures r == DigitsValue(digits)
  {
    AllDigitsIff(digits);
    r := 0;
    for i := 0 to |digits|
      invariant AllDigits(digits[..i]) && r == DigitsValue(digits[..i])
    {
      assert digits[..i + 1][..i] == digits[..i];
      AllDigitsIff(digits[..i + 1]);
      r := r * 10 + DigitValue(digits[i]);
    }
    assert digits[..|digits|] == digits;
  }

  /** The character loop of ParseInt128: every character after the first is a digit. */
  method DigitsAfterFirst(ss: string) returns (ok: bool)
    requires |ss| >= 1
    ensures ok <==> forall k | 1 <= k < |ss| :: IsDigit(ss[k])
  {
    for i := 1 to |ss|
      invariant forall k | 1 <= k < i :: IsDigit(ss[k])
    {
      if !IsDigit(ss[i]) {
        return false;
      }
    }
    return true;
  }

  /** The zero-stripping loop of ParseInt128: skip zeros from start, keeping the last character. */
  method SkipZeros(ss: string, start: nat) returns (firstDigit: nat)
    requires start <= |ss|
    ensures start <= firstDigit <= |ss| && (start < |ss| ==> firstDigit < |ss|)
    ensures forall k | start <= k < firstDigit :: ss[k] == '0'
    ensures firstDigit >= |ss| - 1 || ss[firstDigit] != '0'
  {
    firstDigit := start;
    while firstDigit < |ss| - 1 && ss[firstDigit] == '0'
      invariant start <= firstDigit <= |ss| && (start < |ss| ==> firstDigit < |ss|)
      invariant forall k | start <= k < firstDigit :: ss[k] == '0'
    {
      firstDigit := firstDigit + 1;
    }
  }

  /**
   * The source's ParseInt128, as written: check the characters, strip
   * leading zeros (keeping at least one character), bound the length, then
   * accumulate the digits.  The token "-" passes every check and reads as 0.
   */
  method ParseInt128AsWritten(ss: string) returns (r: Result<int, string>)
    ensures ss == "-" ==> r == Ok(0)
    ensures ss != "-" ==> r == IntInRange(ss)
  {
    var error := FenceDesign.NotAnInteger(ss);
    AllDigitsIff(ss);
    if |ss| >= 1 {
      AllDigitsIff(ss[1..]);
    }
    if |ss| == 0 || (ss[0] != '-' && !IsDigit(ss[0])) {
      return Err(error);
    }
    var ok := DigitsAfterFirst(ss);
    if !ok {
      return Err(error);
    }
    var start := if ss[0] == '-' then 1 else 0;
    var firstDigit := SkipZeros(ss, start);
    var digits := ss[firstDigit..];
    var s := (if ss[0] == '-' then "-" else "") + digits;
    if |s| > 40 || (|s| == 40 && s != "-1" + Zeros(38)) || (|s| == 39 && s[0] != '-' && s != "1" + Zeros(38)) {
      ParseInt128Checks(ss, start, firstDigit);
      return Err(error);
    }
    if ss != "-" {
      ParseInt128Checks(ss, start, firstDigit);
    }
    AllDigitsIff(digits);
    var value := ReadDigits(digits);
    r := Ok(if ss[0] == '-' then -(value as int) else value);
  }

  /** ParseInt128 as intended: "-" alone is not an integer. */
  method ParseInt128(ss: string) returns (r: Result<int, string>)
    ensures r == IntInRange(ss)
  {
    if ss == "-" {
      return Err(FenceDesign.NotAnInteger(ss));
    }
    r := ParseInt128AsWritten(ss);
  }

  /** The reader's contract, as its tests state it: a lone "-" is not an integer. */
  lemma DashRejected()
    ensures IntInRange("-").Err?
  {
  }

  /** What Strint128 prints is an integer token whose value is the printed number. */
  lemma TokenDecimal(v: int)
    ensures FenceDesign.IntToken(Decimal(v)) && FenceDesign.TokenValue(Decimal(v)) == v
  {
    if v < 0 {
      assert Decimal(v)[1..] == NatDigits(-v);
      AllDigitsIff(NatDigits(-v));
    } else {
      AllDigitsIff(Decimal(v));
    }
  }

  /** Every integer within 10^38 is read back from what Strint128 prints. */
  lemma ParseStrint(v: int)
    requires -Limit <= v <= Limit
    ensures IntInRange(Decimal(v)) == Ok(v)
  {
    TokenDecimal(v);
  }

  /** Leading zeros in front of the digits do not change what is read. */
  lemma LeadingZerosRead(n: nat, v: int)
    requires 0 <= v <= Limit
    ensures IntInRange(Zeros(n) + Decimal(v)) == Ok(v)
  {
    LeadingZeros(n, Decimal(v));
    AllDigitsIff(Zeros(n) + Decimal(v));
  }

  // ---------------------------------------------------------------------
  // Judging
  // ---------------------------------------------------------------------

  const InvalidLengthError := "Solution length does not match the number of questions."
  const InvalidCharactersError := "Solution contains characters other than T and F."
  const IncorrectAnswerError := "Solution gives an answer for a question that is not optimal."
  const IncorrectFractionError := "Fraction of expected number of correct questions is not correct."
  const Accepted := ""

  /** One answer line: the lowercased answers and the expected score as a fraction. */
  datatype CaseOutput = CaseOutput(answer: string, fraction: string)

  /** The source's ParseCaseOutput: exactly one line of exactly two tokens. */
  function ParseCaseOutput(lines: seq<seq<string>>): (r: Result<CaseOutput, string>)
    ensures r.Ok? <==> |lines| == 1 && |lines[0]| == 2
    ensures r.Ok? ==> r.value == CaseOutput(lines[0][0], lines[0][1])
  {
    if |lines| != 1 then Err("Wrong number of lines in case output")
    else if |lines[0]| != 2 then Err("Wrong number of tokens in case output")
    else Ok(CaseOutput(lines[0][0], lines[0][1]))
  }

  /** The first problem at or after question i: a character other than f or t, or a non-optimal answer. */
  function AnswerError(answer: string, optimal: string, i: nat): Option<string>
    requires |optimal| == |answer| && i <= |answer|
    decreases |answer| - i
  {
    if i == |answer| then None
    else if answer[i] != 'f' && answer[i] != 't' then Some(InvalidCharactersError)
    else if optimal[i] != '?' && answer[i] != optimal[i] then Some(IncorrectAnswerError)
    else AnswerError(answer, optimal, i + 1)
  }

  /** Question j is answered with f or t, and as the optimal answer unless that is '?'. */
  predicate GoodAnswer(answer: string, optimal: string, j: int)
    requires 0 <= j < |answer| <= |optimal|
  {
    (answer[j] == 'f' || answer[j] == 't') && (optimal[j] == '?' || answer[j] == optimal[j])
  }

  /** No error from question i on exactly when every such question is answered well. */
  lemma {:induction false} AnswerErrorNone(answer: string, optimal: string, i: nat)
    requires |optimal| == |answer| && i <= |answer|
    ensures AnswerError(answer, optimal, i).None? <==> forall j | i <= j < |answer| :: GoodAnswer(answer, optimal, j)
    ensures AnswerError(answer, optimal, i) in {None, Some(InvalidCharactersError), Some(IncorrectAnswerError)}
    decreases |answer| - i
  {
    if i < |answer| {
      AnswerErrorNone(answer, optimal, i + 1);
      assert AnswerError(answer, optimal, i).None? <==>
        GoodAnswer(answer, optimal, i) && AnswerError(answer, optimal, i + 1).None?;
    }
  }

  /**
   * The verdict on an attempt, given the judge's optimal answer (with '?'
   * where either answer is optimal) and its fraction for q questions.
   */
  function Verdict(q: int, judge: CaseOutput, attempt: CaseOutput): string
    requires |judge.answer| == q
  {
    if |attempt.answer| != q then InvalidLengthError
    else match AnswerError(attempt.answer, judge.answer, 0)
      case Some(e) => e
      case None => if attempt.fraction != judge.fraction then IncorrectFractionError else Accepted
  }

  /**
   * An attempt is accepted exactly when it answers all q questions with f or
   * t, agrees with the optimal answer wherever that is not '?', and states
   * the same fraction; every other verdict is one of the four errors.
   */
  lemma VerdictAccepted(q: int, judge: CaseOutput, attempt: CaseOutput)
    requires |judge.answer| == q
    ensures Verdict(q, judge, attempt) == Accepted <==>
      |attempt.answer| == q &&
      (forall j | 0 <= j < q :: GoodAnswer(attempt.answer, judge.answer, j)) &&
      attempt.fraction == judge.fraction
    ensures Verdict(q, judge, attempt) in
      {Accepted, InvalidLengthError, InvalidCharactersError, IncorrectAnswerError, IncorrectFractionError}
  {
    if |attempt.answer| == q {
      AnswerErrorNone(attempt.answer, judge.answer, 0);
    }
  }

  /** The judge's own answer, with each '?' answered either way, is accepted. */
  lemma OptimalAccepted(q: int, judge: CaseOutput, answer: string)
    requires |judge.answer| == q && |answer| == q
    requires forall j | 0 <= j < q :: judge.answer[j] in "ft?"
    requires forall j | 0 <= j < q :: answer[j] in "ft" && (judge.answer[j] != '?' ==> answer[j] == judge.answer[j])
    ensures Verdict(q, judge, CaseOutput(answer, judge.fraction)) == Accepted
  {
    forall j | 0 <= j < q
      ensures GoodAnswer(answer, judge.answer, j)
    {
      assert answer[j] in "ft";
    }
    VerdictAccepted(q, judge, CaseOutput(answer, judge.fraction));
  }

  /** The source's JudgeCase, given the judge's optimal answer. */
  method JudgeCase(q: int, judge: CaseOutput, attempt: CaseOutput) returns (r: string)
    requires |judge.answer| == q
    ensures r == Verdict(q, judge, attempt)
  {
    if |attempt.answer| != q {
      return InvalidLengthError;
    }
    for i := 0 to q
      invariant AnswerError(attempt.answer, judge.answer, 0) == AnswerError(attempt.answer, judge.answer, i)
    {
      if attempt.answer[i] != 'f' && attempt.answer[i] != 't' {
        return InvalidCharactersError;
      }
      if judge.answer[i] == '?' {
        continue;
      }
      if attempt.answer[i] != judge.answer[i] {
        return IncorrectAnswerError;
      }
    }
    if attempt.fraction != judge.fraction {
      return IncorrectFractionError;
    }
    return Accepted;
  }
}
