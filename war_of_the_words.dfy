/**
 * The War of the Words interactive judge (Code Jam to I/O for Women 2019).
 * The 100000 words are five letters from 'A' to 'J', one per decimal digit
 * of the word's number.  The judge ranks the words (rank 0 is the best); a
 * word beats every word ranked below it, except that the worst word beats
 * the best.  Each round the judge's robot plays a word that beats the
 * contestant's previous word.
 */
module WarOfTheWords {
  import opened Wrappers
  import opened JudgeUtils

  const NumWords: int := 100000
  const WordLength: nat := 5

  const ExtraNewLines := "Input has extra newline characters."
  const IncorrectWordLength := "Input word is not of length 5."
  const InvalidWord := "Input has invalid character in word."

  predicate IsLetter(c: char)
  {
    'A' <= c <= 'J'
  }

  /** A word of the game: five letters from 'A' to 'J'. */
  predicate IsWord(s: string)
  {
    |s| == WordLength && forall i | 0 <= i < |s| :: IsLetter(s[i])
  }

  // ---------------------------------------------------------------------
  // Words and their numbers
  // ---------------------------------------------------------------------

  /** A number below 10^k has at most k canonical digits. */
  lemma DigitsWithin(n: nat, k: nat)
    requires k >= 1 && n < Pow10(k)
    ensures |NatDigits(n)| <= k
  {
  }

  /** Python's `'{:0<width>d}'.format(n)`: the digits of n, padded on the left with zeros to the width. */
  function ZeroPadded(n: nat, width: nat): (s: string)
    ensures AllDigits(s) && DigitsValue(s) == n
    ensures |s| == if |NatDigits(n)| < width then width else |NatDigits(n)|
  {
    var d := NatDigits(n);
    var pad := if |d| < width then width - |d| else 0;
    LeadingZeros(pad, d);
    Zeros(pad) + d
  }

  /** The word of number x: its five zero-padded digits, each written as a letter from 'A'. */
  function NumToWord(x: int): (w: string)
    requires 0 <= x < NumWords
    ensures IsWord(w)
  {
    DigitsWithin(x, WordLength);
    var f := ZeroPadded(x, WordLength);
    AllDigitsIff(f);
    seq(WordLength, i requires 0 <= i < WordLength => ('A' as int + DigitValue(f[i])) as char)
  }

  /** The digit string a word spells. */
  function WordDigits(s: string): (d: string)
    requires IsWord(s)
    ensures |d| == WordLength && AllDigits(d)
  {
    var d := seq(|s|, i requires 0 <= i < |s| => DigitChar(s[i] as int - 'A' as int));
    AllDigitsIff(d);
    d
  }

  /** The number of a word: the letters read as decimal digits. */
  function WordToNum(s: string): (x: int)
    requires IsWord(s)
    ensures 0 <= x < NumWords
  {
    var d := WordDigits(s);
    DigitsBelow(d);
    DigitsValue(d)
  }

  /** Numbering a word's number gives the number back. */
  lemma WordOfNum(x: int)
    requires 0 <= x < NumWords
    ensures WordToNum(NumToWord(x)) == x
  {
    DigitsWithin(x, WordLength);
    var f := ZeroPadded(x, WordLength);
    AllDigitsIff(f);
    assert WordDigits(NumToWord(x)) == f;
  }

  /** Padding to one more place adds one leading zero. */
  lemma PadOneMore(n: nat, width: nat)
    requires |NatDigits(n)| <= width
    ensures ZeroPadded(n, width + 1) == Zeros(1) + ZeroPadded(n, width)
  {
    var d := NatDigits(n);
    assert Zeros(width + 1 - |d|) == Zeros(1) + Zeros(width - |d|);
  }

  /** A digit string is the zero-padded form of its value at its own width. */
  lemma {:induction false} PaddedDigits(d: string)
    requires AllDigits(d) && |d| >= 1
    ensures ZeroPadded(DigitsValue(d), |d|) == d
    decreases |d|
  {
    AllDigitsIff(d);
    if |d| == 1 || d[0] != '0' {
      CanonicalDigits(d);
      assert Zeros(0) + d == d;
    } else {
      var t := d[1..];
      AllDigitsIff(t);
      assert d == Zeros(1) + t;
      LeadingZeros(1, t);
      PaddedDigits(t);
      PadOneMore(DigitsValue(t), |t|);
    }
  }

  /** Every word is the word of its number: the two functions are inverse bijections. */
  lemma NumOfWord(s: string)
    requires IsWord(s)
    ensures NumToWord(WordToNum(s)) == s
  {
    var d := WordDigits(s);
    PaddedDigits(d);
    var w := NumToWord(WordToNum(s));
    forall i | 0 <= i < WordLength ensures w[i] == s[i] {
      assert DigitValue(d[i]) == s[i] as int - 'A' as int;
    }
  }

  // ---------------------------------------------------------------------
  // Reading a word
  // ---------------------------------------------------------------------

  /**
   * The judge's check of one line from the contestant: no line break, five
   * characters, all from 'A' to 'J'.  It passes exactly the words, and a
   * word is refused only with the message for its first failed check.
   */
  function ParseContestantInput(response: string): (r: Option<string>)
    ensures r.None? <==> IsWord(response)
    ensures r.Some? ==> r.value in {ExtraNewLines, IncorrectWordLength, InvalidWord}
  {
    if '\n' in response || '\r' in response then Some(ExtraNewLines)
    else if |response| != WordLength then Some(IncorrectWordLength)
    else if exists i | 0 <= i < |response| :: !IsLetter(response[i]) then Some(InvalidWord)
    else None
  }

  // ---------------------------------------------------------------------
  // Ranks
  // ---------------------------------------------------------------------

  /** Rank r1 beats rank r2: a better (smaller) rank wins, except that the worst rank beats the best. */
  function CompareRanks(r1: int, r2: int): bool
  {
    if r1 < r2 && !(r1 == 0 && r2 == NumWords - 1) then true
    else if r1 == NumWords - 1 && r2 == 0 then true
    else false
  }

  /**
   * Beating is irreflexive and asymmetric, of two different ranks exactly
   * one beats the other, and the last rank beats the first.
   */
  lemma CompareRanksOrder(r1: int, r2: int)
    ensures !CompareRanks(r1, r1)
    ensures CompareRanks(r1, r2) ==> !CompareRanks(r2, r1)
    ensures r1 != r2 ==> CompareRanks(r1, r2) || CompareRanks(r2, r1)
    ensures CompareRanks(NumWords - 1, 0) && !CompareRanks(0, NumWords - 1)
  {
  }

  /** The ranks the robot draws from, as a half-open range [lo, hi). */
  function GetBetterRankRange(rank: int): (range: (int, int))
    requires 0 <= rank < NumWords
    ensures 0 <= range.0 < range.1 <= NumWords
  {
    if rank == 0 then (NumWords - 1, NumWords)
    else if rank == NumWords - 1 then (1, rank)
    else (0, rank)
  }

  /** The robot's range holds exactly the ranks that beat the given one. */
  lemma BetterRankRange(rank: int, r: int)
    requires 0 <= rank < NumWords
    ensures GetBetterRankRange(rank).0 <= r < GetBetterRankRange(rank).1 <==> 0 <= r < NumWords && CompareRanks(r, rank)
  {
  }
}
