/**
 * The Shuffled Anagrams judge (Kick Start 2021, round E).  Given a string of
 * lower-case letters, an answer rearranges its letters so that no position
 * keeps its original letter, or says IMPOSSIBLE.
 */
module ShuffledAnagrams {
  import opened Wrappers
  import opened Sequences

  const ImpossibleKeyword := "IMPOSSIBLE"
  const BadImpossibleClaim := "Contestant claims a solution does not exist while judge finds a solution"
  const InvalidElementsRange := "Output elements should be lowercase alphabets"
  const WrongInformation := "Solution does not generate an anagram or the characters are same as in input at some index."
  const EmptyOutput := "Case output is empty"
  const NotLowercase := "Character is not a lowercase alphabet."

  /** IMPOSSIBLE is read as the empty answer. */
  const ImpossibleOutput: string := ""

  /** The empty result means the case is accepted. */
  const Accepted: string := ""

  predicate IsLower(c: char)
  {
    'a' <= c <= 'z'
  }

  predicate AllLower(s: string)
  {
    forall i | 0 <= i < |s| :: IsLower(s[i])
  }

  predicate CharLess(a: char, b: char)
  {
    a < b
  }

  lemma CharLessTotal()
    ensures StrictTotalOrder(CharLess)
  {
  }

  // ---------------------------------------------------------------------
  // ParseCaseOutput
  // ---------------------------------------------------------------------

  /**
   * What one case's answer token is read as: IMPOSSIBLE as the empty answer,
   * otherwise the token itself, which must be all lower-case letters.  An
   * error stops the judge with its message.
   */
  function ParsedOutput(line: string): (r: Result<string, string>)
    ensures r.Ok? ==> (r.value == ImpossibleOutput <==> line == ImpossibleKeyword)
    ensures r.Ok? && line != ImpossibleKeyword ==> r.value == line && AllLower(r.value)
    ensures r.Err? <==> line == [] || (line != ImpossibleKeyword && !AllLower(line))
  {
    if |line| == 0 then Err(EmptyOutput)
    else if line == ImpossibleKeyword then Ok(ImpossibleOutput)
    else if exists i | 0 <= i < |line| :: !IsLower(line[i]) then Err(NotLowercase)
    else Ok(line)
  }

  /** The judge's ParseCaseOutput: copies the token letter by letter, stopping at the first other character. */
  method ParseCaseOutput(line: string) returns (r: Result<string, string>)
    ensures r == ParsedOutput(line)
  {
    if |line| == 0 {
      return Err(EmptyOutput);
    }
    if line == ImpossibleKeyword {
      return Ok(ImpossibleOutput);
    }
    var output := "";
    var i := 0;
    while i < |line|
      invariant 0 <= i <= |line|
      invariant output == line[..i] && AllLower(output)
    {
      var c := line[i];
      if 'a' <= c && c <= 'z' {
        output := output + [c];
      } else {
        return Err(NotLowercase);
      }
      i := i + 1;
    }
    assert line[..i] == line;
    return Ok(output);
  }

  // ---------------------------------------------------------------------
  // isValidSolution
  // ---------------------------------------------------------------------

  /** v is an anagram of s in which no position keeps the letter s has there. */
  predicate Shuffled(v: string, s: string)
  {
    && |v| == |s|
    && (forall a | 0 <= a < |s| :: v[a] != s[a])
    && multiset(v) == multiset(s)
  }

  /**
   * The judge's isValidSolution: no position of the input may keep its letter,
   * and the two strings, sorted, must be equal.
   */
  method IsValidSolution(v: string, s: string) returns (ok: bool)
    ensures ok <==> Shuffled(v, s)
  {
    var n := |s|;
    var a := 0;
    while a < n
      invariant 0 <= a <= n
      invariant forall b | 0 <= b < a && b < |v| :: v[b] != s[b]
    {
      // The source reads v[a] without checking |v|; a shorter answer reads
      // past its end there.  Skipping those positions gives the same
      // verdict: the sorted comparison below refuses any answer whose
      // length differs.
      if a < |v| && v[a] == s[a] {
        return false;
      }
      a := a + 1;
    }
    CharLessTotal();
    SortByEqual(v, s, CharLess);
    ok := SortBy(v, CharLess) == SortBy(s, CharLess);
    if ok {
      assert |v| == |multiset(v)| == |multiset(s)| == |s|;
    }
  }

  // ---------------------------------------------------------------------
  // JudgeCase
  // ---------------------------------------------------------------------

  /**
   * The judge's JudgeCase: the empty result accepts.  IMPOSSIBLE is right
   * only when the reference also says so; otherwise the answer must be
   * lower-case letters shuffling the input with no letter left in place.
   */
  function JudgeCase(input: string, correct: string, attempt: string): (r: string)
    ensures attempt == ImpossibleOutput ==> (r == Accepted <==> correct == ImpossibleOutput)
    ensures attempt != ImpossibleOutput ==> (r == Accepted <==> AllLower(attempt) && Shuffled(attempt, input))
    ensures r == InvalidElementsRange <==> attempt != ImpossibleOutput && !AllLower(attempt)
  {
    if attempt == ImpossibleOutput then
      if correct == ImpossibleOutput then Accepted else BadImpossibleClaim
    else if exists i | 0 <= i < |attempt| :: attempt[i] < 'a' || attempt[i] > 'z' then InvalidElementsRange
    else if Shuffled(attempt, input) then Accepted
    else WrongInformation
  }

  // The cases the judge's own self-test checks.

  lemma ExampleWrongImpossible()
    ensures JudgeCase("aabbc", "bcaab", ImpossibleOutput) == BadImpossibleClaim
  {
  }

  lemma ExampleNotAnagram()
    ensures JudgeCase("aaabb", ImpossibleOutput, "bbaaz") == WrongInformation
  {
    NotAnagramLetters();
  }

  lemma NotAnagramLetters()
    ensures AllLower("bbaaz") && !Shuffled("bbaaz", "aaabb")
  {
    ExtraLetter();
  }

  lemma ExtraLetter()
    ensures multiset("bbaaz") != multiset("aaabb")
  {
    assert multiset("bbaaz")['z'] == 1 && multiset("aaabb")['z'] == 0;
  }

  lemma ExampleUpperCase()
    ensures JudgeCase("aabbc", "bcaab", "Abcba") == InvalidElementsRange
  {
    assert "Abcba"[0] < 'a';
  }

  lemma ExampleRotation()
    ensures JudgeCase("abcde", "edcba", "bcdea") == Accepted
  {
    RotationShuffled();
  }

  lemma ExampleRepeatedLetters()
    ensures JudgeCase("aabbc", "bcaab", "bcaab") == Accepted
  {
    RepeatedShuffled();
  }

  lemma RotationShuffled()
    ensures AllLower("bcdea") && Shuffled("bcdea", "abcde")
  {
    RotationAnagram();
  }

  lemma RepeatedShuffled()
    ensures AllLower("bcaab") && Shuffled("bcaab", "aabbc")
  {
    RepeatedAnagram();
  }

  lemma RotationAnagram()
    ensures multiset("bcdea") == multiset("abcde")
  {
  }

  lemma RepeatedAnagram()
    ensures multiset("bcaab") == multiset("aabbc")
  {
  }

  lemma ExampleBothImpossible()
    ensures JudgeCase("aaabb", ImpossibleOutput, ImpossibleOutput) == Accepted
  {
  }
}
