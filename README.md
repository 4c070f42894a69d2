# Verified models of Code Jam output judges

This project models, in Dafny, the core of a collection of programming-contest judges. A judge reads a contestant's output for a set of test cases, checks it against the input and a reference answer, and accepts it or explains the first thing that is wrong. There is one module per judge source file:

- `RedBlackTree` and `RBTreeMap` model the red-black tree ordered map (`RBTree` / `RBDict`) that the Rural Planning judge carries.
  - `RedBlackTree` is the tree as a value. It holds the colour invariants, the rotations, and every fix-up step of insertion and removal as a function with a lemma saying which invariant that step keeps.
  - `RBTreeMap.RBTree` is the mutable object. Its methods run the fix-up loops, and each method's contract states the map it now holds (`Contents()`) in terms of the old one.
  - A node handle is a position in the tree: a zipper of the focused subtree and the path back to the root. It stands in for the source's parent links.
- `RuralPlanning` models the judge's geometry: the convex hull, twice the polygon area, the duplicate check and the segment order used by the sweep line.
- `FenceDesign` models the library the newer C++ judges share: truncating messages, the strict integer reader, lower-casing, tokenizing, splitting the output into cases and judging all cases. It also models that judge's segment crossing test and fence reader.
- Each remaining contest judge is one module, named after its problem. Examples are `PascalWalk`, `PatternMatching`, `NamingCompromise`, `SortingPermutationUnit` and `Zillionim`.
- Four modules are shared:
  - `Wrappers` holds `Option` and `Result`.
  - `JudgeUtils` holds the Python judges' integer reader `_utils_ToInteger`, Python's `int()` and decimal rendering.
  - `Sequences` holds sorting by a strict total order, reversal and distinctness.
  - `OrderedPairs` holds the lexicographic order on pairs.

A judge's verdict is modelled as the message it returns, or as `None`/`Ok` when it accepts. Each judge's acceptance is proved equivalent to an independent description of a correct answer: a schedule without overlaps, a walk summing to the target, an anagram with no fixed letter, and so on. The parsing loops are methods proved equal to a parsing function. That function is then tied to a printer by a round-trip lemma, or tied to the set of strings it accepts.

## Model

| member | source | states |
|---|---|---|
| JudgeUtils.NatDigits | codejam/2013/round_3/rural_planning/output_validators/validator/custom_judge.py:1095-1121 | the canonical digits of n: digits only, spelling n, no leading zero, and "0" exactly for zero |
| JudgeUtils.PyIntDecimal | codejam/2013/round_3/rural_planning/output_validators/validator/custom_judge.py:1109-1110 | Python's int reads every printed integer back as itself |
| JudgeUtils.PyInts | codejam/2020/qualification_round/indicium/output_validators/validator/custom_judge.py:233-236 | converting a line succeeds iff every token is an integer, and then gives each token's value in order |
| JudgeUtils.PyIntLines | codejam/2020/qualification_round/indicium/output_validators/validator/custom_judge.py:233-236 | converting all lines succeeds iff every token of every line is an integer, and then gives their values |
| JudgeUtils.ToIntegerAcceptsPlusLeadingZero | codejam/2013/round_3/rural_planning/output_validators/validator/custom_judge.py:1109-1113 | as written, "+05" is accepted as 5 although its digits have a leading zero, which the documented contract forbids |
| JudgeUtils.ToInteger | codejam/2013/round_3/rural_planning/output_validators/validator/custom_judge.py:1095-1121 | an accepted value lies within the given bounds |
| JudgeUtils.ToIntegerAccepted | codejam/2013/round_3/rural_planning/output_validators/validator/custom_judge.py:1095-1121 | every accepted string is the canonical rendering of an in-range value, or '+' and that rendering |
| JudgeUtils.ToIntegerAccepts | codejam/2013/round_3/rural_planning/output_validators/validator/custom_judge.py:1095-1121 | the canonical rendering of every in-range value is accepted as that value, with or without a '+' |
| JudgeUtils.Upper | codejam/2019/round_1c/robot_programming_strategy/output_validators/validator/custom_judge.py:207-208 | the string with each lower-case ASCII letter raised and every other character kept |
| JudgeUtils.SingleToken | codejam/2019/round_1c/robot_programming_strategy/output_validators/validator/custom_judge.py:276-279 | the answer's one token, present iff the answer is one line of one token |
| YouCanGoYourOwnWay.VerifyAttempt | codejam/2019/qualification_round/you_can_go_your_own_way/output_validators/validator/custom_judge.py:185-218 | the walk over both paths returns exactly the verdict Verdict defines: format, length, first reused move, bad character, destination |
| YouCanGoYourOwnWay.VerdictAccepts | codejam/2019/qualification_round/you_can_go_your_own_way/output_validators/validator/custom_judge.py:196-218 | an answer is accepted iff it is one token of 2N-2 moves 's'/'e' with N-1 of each and it shares no move (cell and direction) with the given path |
| YouCanGoYourOwnWay.SharedMoveSameStep | codejam/2019/qualification_round/you_can_go_your_own_way/output_validators/validator/custom_judge.py:203-205 | comparing the walkers' cells step by step finds a shared move iff the two paths' move sets intersect, since a cell fixes the step on a south-east path |
| YouCanGoYourOwnWay.PosDiagonal | codejam/2019/qualification_round/you_can_go_your_own_way/output_validators/validator/custom_judge.py:203-213 | after i moves a walker stands on the i-th anti-diagonal |
| YouCanGoYourOwnWay.PosCounts | codejam/2019/qualification_round/you_can_go_your_own_way/output_validators/validator/custom_judge.py:208-216 | a walker's cell is its counts of 's' and 'e' moves, so it ends in the corner iff it made N-1 of each |
| ImbalanceObviation.VerifyOutput | codejam_to_io/2020/code_jam_to_io_for_women/imbalance_obviation/output_validators/validator/custom_judge.py:198-241 | each error message is returned exactly under its condition, in the source's order (format, non-L/R, length, putting breaks, removing breaks), and None iff both phases keep the pans within one |
| ImbalanceObviation.PutBalls | codejam_to_io/2020/code_jam_to_io_for_women/imbalance_obviation/output_validators/validator/custom_judge.py:224-231 | the putting loop succeeds iff every prefix keeps the pans within one ball, and leaves the pans' difference as the L/R count difference |
| ImbalanceObviation.RemoveBalls | codejam_to_io/2020/code_jam_to_io_for_women/imbalance_obviation/output_validators/validator/custom_judge.py:233-239 | the removing loop succeeds iff every prefix of the removal order keeps the pans within one ball |
| ImbalanceObviation.VerifyCase | codejam_to_io/2020/code_jam_to_io_for_women/imbalance_obviation/output_validators/validator/custom_judge.py:244-260 | an error in our own output comes back prefixed as ours; when both outputs have the right shape, the case passes iff both pass VerifyOutput |
| ImbalanceObviation.RemovedPermutation | codejam_to_io/2020/code_jam_to_io_for_women/imbalance_obviation/output_validators/validator/custom_judge.py:233-239 | the weight taken off the scale does not depend on the order the balls come off |
| ImbalanceObviation.ScaleEndsEmpty | codejam_to_io/2020/code_jam_to_io_for_women/imbalance_obviation/output_validators/validator/custom_judge.py:233-239 | when the removal order names every ball once, the scale ends empty |
| ImbalanceObviation.RemovedInOrder | codejam_to_io/2020/code_jam_to_io_for_women/imbalance_obviation/output_validators/validator/custom_judge.py:225-239 | removing the balls in the order they went on takes off exactly what was put on |
| EqualSums.ParseSubset | codejam/2012/round_1b/equal_sums/output_validators/validator/custom_judge.py:180-206 | the loop returns exactly Subset of the line (first non-integer, value not in the input, or repeated value), and on success the set of the values read |
| EqualSums.SubsetSound | codejam/2012/round_1b/equal_sums/output_validators/validator/custom_judge.py:196-205 | an accepted line is integers, each in the input set, none repeated |
| EqualSums.SubsetComplete | codejam/2012/round_1b/equal_sums/output_validators/validator/custom_judge.py:196-206 | a line of integers from the input with no repeat is accepted, with exactly those values |
| EqualSums.SubsetIff | codejam/2012/round_1b/equal_sums/output_validators/validator/custom_judge.py:180-206 | a line is read as the values vs iff it parses to vs, vs has no repeats and every value is in the input |
| EqualSums.JudgeCase | codejam/2012/round_1b/equal_sums/output_validators/validator/custom_judge.py:209-231 | extra header tokens are refused; an "impossible" answer is accepted iff it is exactly two lines and the case is impossible |
| EqualSums.JudgeCaseAnswer | codejam/2012/round_1b/equal_sums/output_validators/validator/custom_judge.py:234-253 | a three-line answer is accepted iff both lines are read as subsets of the input, the subsets differ and their sums are equal |
| EqualSums.SumIsSetSum | codejam/2012/round_1b/equal_sums/output_validators/validator/custom_judge.py:247-249 | the sum of distinct values read in order equals the sum of their set, which is what the source sums |
| GoodNewsAndBadNews.VerifyOutput | codejam/2017/round_3/good_news_and_bad_news/output_validators/validator/custom_judge.py:208-252 | the judge's checks return exactly the classification Classify defines: format, count, integers, range, balance, in the source's order |
| GoodNewsAndBadNews.Tally | codejam/2017/round_3/good_news_and_bad_news/output_validators/validator/custom_judge.py:244-249 | the loop refuses iff some amount is zero or exceeds F squared in size, and otherwise leaves each friend's running total |
| GoodNewsAndBadNews.TotalsNet | codejam/2017/round_3/good_news_and_bad_news/output_validators/validator/custom_judge.py:244-249 | each running total is that friend's news received minus news given over the pairs seen so far |
| GoodNewsAndBadNews.BalancedTotals | codejam/2017/round_3/good_news_and_bad_news/output_validators/validator/custom_judge.py:250-251 | the totals list equals the zero list iff every friend's net news is zero |
| GoodNewsAndBadNews.CheckValid | codejam/2017/round_3/good_news_and_bad_news/output_validators/validator/custom_judge.py:240-252 | a list of integers passes the checks iff it is a valid answer: one nonzero amount of size at most F squared per pair, every friend balanced |
| GoodNewsAndBadNews.ClassifyPossible | codejam/2017/round_3/good_news_and_bad_news/output_validators/validator/custom_judge.py:225-252 | a claimed answer is accepted iff it is one line of integers, not "impossible", that forms a valid answer |
| GoodNewsAndBadNews.ClassifyImpossible | codejam/2017/round_3/good_news_and_bad_news/output_validators/validator/custom_judge.py:231-234 | IMPOSSIBLE is recognised iff it is the only token of the only line |
| GoodNewsAndBadNews.PrintedValidAnswer | codejam/2017/round_3/good_news_and_bad_news/output_validators/validator/custom_judge.py:225-252 | printing any valid answer's amounts on one line gives an answer the judge accepts |
| GoodNewsAndBadNews.VerifyCase | codejam/2017/round_3/good_news_and_bad_news/output_validators/validator/custom_judge.py:255-276 | the contestant's error comes first, then our output's error marked as ours; otherwise the case passes iff both answers agree on IMPOSSIBLE |
| GoodNewsAndBadNews.VerifyCaseSound | codejam/2017/round_3/good_news_and_bad_news/output_validators/validator/custom_judge.py:255-276 | whenever a claimed answer is accepted it is a valid answer, whatever the reference output says |
| WarOfTheWords.ZeroPadded | codejam_to_io/2019/code_jam_to_io_for_women/war_of_the_words/output_validators/validator/judge.py:23-25 | the zero-padded rendering holds only digits, has the number's value and the given width (or more digits when the number needs them) |
| WarOfTheWords.NumToWord | codejam_to_io/2019/code_jam_to_io_for_women/war_of_the_words/output_validators/validator/judge.py:23-25 | the word of a number below 100000 is five letters from A to J |
| WarOfTheWords.WordToNum | codejam_to_io/2019/code_jam_to_io_for_women/war_of_the_words/output_validators/validator/judge.py:28-31 | the number of a word is below 100000 |
| WarOfTheWords.WordOfNum | codejam_to_io/2019/code_jam_to_io_for_women/war_of_the_words/output_validators/validator/judge.py:23-31 | WordToNum(NumToWord(x)) == x for every x in [0, 100000) |
| WarOfTheWords.NumOfWord | codejam_to_io/2019/code_jam_to_io_for_women/war_of_the_words/output_validators/validator/judge.py:23-31 | NumToWord(WordToNum(w)) == w for every word, so the two are inverse bijections |
| WarOfTheWords.ParseContestantInput | codejam_to_io/2019/code_jam_to_io_for_women/war_of_the_words/output_validators/validator/judge.py:57-79 | a response passes iff it is a word (no line break, five characters, all from A to J), and a refusal carries one of the three messages |
| WarOfTheWords.CompareRanksOrder | codejam_to_io/2019/code_jam_to_io_for_women/war_of_the_words/output_validators/validator/judge.py:102-109 | beating is irreflexive and asymmetric, of two different ranks exactly one beats the other, and the worst rank beats the best |
| WarOfTheWords.GetBetterRankRange | codejam_to_io/2019/code_jam_to_io_for_women/war_of_the_words/output_validators/validator/judge.py:115-121 | the robot's range is a nonempty part of [0, 100000) |
| WarOfTheWords.BetterRankRange | codejam_to_io/2019/code_jam_to_io_for_women/war_of_the_words/output_validators/validator/judge.py:102-121 | a rank lies in the robot's range iff it is a valid rank that beats the given one |
| ParentingPartneringReturns.AdjacentOverlap | codejam/2020/qualification_round/parenting_partnering_returns/output_validators/validator/custom_judge.py:205-208 | the scan finds an overlap iff some activity ends after the next one starts |
| ParentingPartneringReturns.SortedScan | codejam/2020/qualification_round/parenting_partnering_returns/output_validators/validator/custom_judge.py:203-208 | on a list sorted by start then end, the adjacent scan finds an overlap iff some two activities overlap |
| ParentingPartneringReturns.PermutedOverlap | codejam/2020/qualification_round/parenting_partnering_returns/output_validators/validator/custom_judge.py:204 | rearranging the list (as sorting does) keeps any overlap |
| ParentingPartneringReturns.SortThenScan | codejam/2020/qualification_round/parenting_partnering_returns/output_validators/validator/custom_judge.py:203-208 | sorting then scanning neighbours finds exactly the overlaps of the list |
| ParentingPartneringReturns.IntervalsIntersect | codejam/2020/qualification_round/parenting_partnering_returns/output_validators/validator/custom_judge.py:203-208 | on activities that end after they start, the result is true iff some two activities of the list overlap |
| ParentingPartneringReturns.Indices | codejam/2020/qualification_round/parenting_partnering_returns/output_validators/validator/custom_judge.py:242-246 | the positions given to one parent: all of them, in increasing order |
| ParentingPartneringReturns.AssignedConflict | codejam/2020/qualification_round/parenting_partnering_returns/output_validators/validator/custom_judge.py:242-253 | a parent's list built by the loop overlaps iff two different activities of that parent overlap, and it keeps start before end |
| ParentingPartneringReturns.VerifiedAsSchedule | codejam/2020/qualification_round/parenting_partnering_returns/output_validators/validator/custom_judge.py:211-255 | an answer is accepted as a schedule iff it has one C or J per activity and neither parent has two overlapping activities |
| ParentingPartneringReturns.VerifyOutput | codejam/2020/qualification_round/parenting_partnering_returns/output_validators/validator/custom_judge.py:211-255 | each error is returned exactly under its condition in the source's order (format, length, character, Cameron overlap, Jamie overlap); IMPOSSIBLE gives Ok(false), a valid schedule Ok(true) |
| ParentingPartneringReturns.VerifyCase | codejam/2020/qualification_round/parenting_partnering_returns/output_validators/validator/custom_judge.py:258-283 | the case passes iff our output and the attempt both give a schedule or both say IMPOSSIBLE; each disagreement gets its own message |
| NamingCompromise.ComputeEditDistance | codejam/2020/round_3/naming_compromise/output_validators/validator/custom_judge.py:203-219 | the dynamic program returns the edit distance Lev(s, t) (insertions, deletions, substitutions) |
| NamingCompromise.FillRow | codejam/2020/round_3/naming_compromise/output_validators/validator/custom_judge.py:212-217 | one row of the table holds the distances from s[i..] to every suffix of t |
| NamingCompromise.LevStep | codejam/2020/round_3/naming_compromise/output_validators/validator/custom_judge.py:214-217 | the source's cell rule computes the distance: on equal characters the diagonal alone, otherwise one more than the least neighbour |
| NamingCompromise.LevBorders | codejam/2020/round_3/naming_compromise/output_validators/validator/custom_judge.py:207-210 | the last row and column hold the lengths of what is left |
| NamingCompromise.MatchingFirst | codejam/2020/round_3/naming_compromise/output_validators/validator/custom_judge.py:214-215 | when the first characters agree, keeping them is optimal, which justifies the source's shortcut |
| NamingCompromise.LevSymmetric | codejam/2020/round_3/naming_compromise/output_validators/validator/custom_judge.py:253-254 | the distance does not depend on which string comes first |
| NamingCompromise.LevZero | codejam/2020/round_3/naming_compromise/output_validators/validator/custom_judge.py:203-219 | the distance is zero iff the strings are equal |
| NamingCompromise.LevBound | codejam/2020/round_3/naming_compromise/output_validators/validator/custom_judge.py:203-219 | the distance never exceeds the longer length |
| NamingCompromise.UpperLetters | codejam/2020/round_3/naming_compromise/output_validators/validator/custom_judge.py:245-248 | on upper-cased text, every character being a capital is the letter check the source makes |
| NamingCompromise.CheckName | codejam/2020/round_3/naming_compromise/output_validators/validator/custom_judge.py:247-267 | after the format check a name is accepted iff it is letters only, no longer than C and J together, at the required total distance when one is given, and within one of C and J |
| NamingCompromise.VerifyOutput | codejam/2020/round_3/naming_compromise/output_validators/validator/custom_judge.py:222-267 | Ok iff the one token, upper-cased, is an acceptable name, and then the value is its distance to C plus its distance to J; the format error and each other error under their conditions |
| NamingCompromise.VerifyCase | codejam/2020/round_3/naming_compromise/output_validators/validator/custom_judge.py:270-286 | the case passes iff our answer is acceptable and the attempt is acceptable at exactly our answer's total distance |
| SenateEvacuation.EvacuateCounts | codejam/2018/practice_session/senate_evacuation/output_validators/validator/custom_judge.py:223-232 | one step succeeds iff its letters name parties that still have those senators, and leaves the sizes minus the letters' counts |
| SenateEvacuation.ValidPlanStep | codejam/2018/practice_session/senate_evacuation/output_validators/validator/custom_judge.py:219-237 | the rest of a valid plan after its first step is a valid plan for what that step leaves |
| SenateEvacuation.FollowEmpties | codejam/2018/practice_session/senate_evacuation/output_validators/validator/custom_judge.py:219-240 | following the plan leaves no negative size, and it empties the senate iff the plan is valid |
| SenateEvacuation.VerdictAccepts | codejam/2018/practice_session/senate_evacuation/output_validators/validator/custom_judge.py:201-242 | the judge accepts iff the answer is one line that is a valid plan: steps of one or two senators from parties that still have them, no absolute majority after any step, nobody left at the end |
| SenateEvacuation.CountsTotal | codejam/2018/practice_session/senate_evacuation/output_validators/validator/custom_judge.py:223-232 | the per-party counts of a plan's letters add up to its number of letters |
| SenateEvacuation.AcceptedEvacuatesAll | codejam/2018/practice_session/senate_evacuation/output_validators/validator/custom_judge.py:201-242 | an accepted plan names exactly as many senators as the senate holds |
| SenateEvacuation.VerifyCase | codejam/2018/practice_session/senate_evacuation/output_validators/validator/custom_judge.py:201-242 | the loop over a copy of the sizes returns exactly Verdict and leaves the case unchanged |
| SenateEvacuation.HasMajority | codejam/2018/practice_session/senate_evacuation/output_validators/validator/custom_judge.py:235-237 | true iff some party's size doubled exceeds the total |
| Zillionim.StartWellFormed | codejam/2019/round_3/zillionim/problem_statement/local_testing_tool.py:51-55 | the starting status, one interval of all coins, has the form ApplyPlay requires |
| Zillionim.ApplyPlay | codejam/2019/round_3/zillionim/problem_statement/local_testing_tool.py:51-69 | the loop returns exactly Play: the status with coins p..p+B-1 removed, keeping only pieces of at least B coins, or the error when no interval holds the play |
| Zillionim.SplitInside | codejam/2019/round_3/zillionim/problem_statement/local_testing_tool.py:59-64 | each piece of a split interval lies inside it, holds at least B coins, and the pieces are in order |
| Zillionim.PiecesWellFormed | codejam/2019/round_3/zillionim/problem_statement/local_testing_tool.py:56-66 | the new status stays well formed and within the old span |
| Zillionim.PiecesValid | codejam/2019/round_3/zillionim/problem_statement/local_testing_tool.py:56-66 | after a play at p a play at q is valid iff some interval keeps q |
| Zillionim.PlayValid | codejam/2019/round_3/zillionim/problem_statement/local_testing_tool.py:51-69 | a play is refused iff it is not valid; otherwise the new status is well formed and a later play is valid on it iff it was valid before and does not overlap the coins taken |
| Zillionim.CountValidPoints | codejam/2019/round_3/zillionim/problem_statement/local_testing_tool.py:72-73 | on a well-formed status there is at least one valid play per interval |
| Zillionim.IthPoint | codejam/2019/round_3/zillionim/problem_statement/local_testing_tool.py:76-82 | the loop returns the i-th valid play as Ith defines it |
| Zillionim.IthValid | codejam/2019/round_3/zillionim/problem_statement/local_testing_tool.py:76-82 | every numbered play is valid |
| Zillionim.IthIncreasing | codejam/2019/round_3/zillionim/problem_statement/local_testing_tool.py:76-82 | the numbering is strictly increasing |
| Zillionim.IthOnto | codejam/2019/round_3/zillionim/problem_statement/local_testing_tool.py:72-82 | every valid play has a number below CountValidPoints, so IthPoint enumerates the valid plays exactly |
| SavingTheJelly.Dist2 | codejam/2022/round_2/saving_the_jelly/output_validators/validator/judge.cpp:340-344 | the squared Euclidean distance is never negative and is zero only between equal points |
| SavingTheJelly.Dist2Symmetric | codejam/2022/round_2/saving_the_jelly/output_validators/validator/judge.cpp:340-344 | the distance does not depend on the order of the two points |
| SavingTheJelly.Message | codejam/2022/round_2/saving_the_jelly/output_validators/validator/judge.cpp:354-392 | every refusal has a non-empty message, so the empty string means acceptance |
| SavingTheJelly.CloserNone | codejam/2022/round_2/saving_the_jelly/output_validators/validator/judge.cpp:383-392 | the scan finds no closer sweet iff every free sweet from the scan's start is at least as far from the child as the chosen one |
| SavingTheJelly.StepRecords | codejam/2022/round_2/saving_the_jelly/output_validators/validator/judge.cpp:354-392 | one step succeeds iff the child is in range and new, the sweet is not the forbidden first one, is in range and free, and no free sweet is closer; the flags then record one more step |
| SavingTheJelly.ReplayRecords | codejam/2022/round_2/saving_the_jelly/output_validators/validator/judge.cpp:352-393 | a successful replay of k steps marks exactly the children and sweets of those steps |
| SavingTheJelly.ReplayAccepts | codejam/2022/round_2/saving_the_jelly/output_validators/validator/judge.cpp:352-393 | the replay of k steps succeeds iff each of those steps is allowed |
| SavingTheJelly.CheckIsCorrectAccepts | codejam/2022/round_2/saving_the_jelly/output_validators/validator/judge.cpp:346-394 | the judge returns the empty string iff every step of the order is allowed |
| SavingTheJelly.GiveSweet | codejam/2022/round_2/saving_the_jelly/output_validators/validator/judge.cpp:354-392 | one pass of the loop refuses with exactly Step's error, or sets the flags to Step's result |
| SavingTheJelly.CheckOrder | codejam/2022/round_2/saving_the_jelly/output_validators/validator/judge.cpp:346-394 | the loop over the order on two flag arrays returns exactly the message CheckIsCorrect gives |
| SavingTheJelly.JudgeCaseAccepts | codejam/2022/round_2/saving_the_jelly/output_validators/validator/judge.cpp:454-473 | a case is correct iff both orders are valid and both answers agree on the possibility token; it is a judge error iff the judge's order is invalid or a valid attempt says "possible" against the judge's "impossible" |
| ShuffledAnagrams.ParsedOutput | kickstart/2021/round_e/shuffled_anagrams/output_validators/validator/custom_judge.cc:327-341 | IMPOSSIBLE reads as the empty answer, any other token is read as itself and must be all lower-case letters; the empty token and any other character are errors |
| ShuffledAnagrams.ParseCaseOutput | kickstart/2021/round_e/shuffled_anagrams/output_validators/validator/custom_judge.cc:327-341 | the loop copying letters returns exactly ParsedOutput |
| ShuffledAnagrams.IsValidSolution | kickstart/2021/round_e/shuffled_anagrams/output_validators/validator/custom_judge.cc:344-354 | true iff the answer has the input's length, keeps no letter in place, and is a rearrangement of the input |
| ShuffledAnagrams.JudgeCase | kickstart/2021/round_e/shuffled_anagrams/output_validators/validator/custom_judge.cc:356-372 | IMPOSSIBLE is accepted iff the reference also says IMPOSSIBLE; any other answer is accepted iff it is lower-case letters shuffling the input with no letter in place; the range error is given iff some character is not a lower-case letter |
| ShuffledAnagrams.ExampleWrongImpossible | kickstart/2021/round_e/shuffled_anagrams/output_validators/validator/custom_judge.cc:375-376 | the source's self-test: a wrong IMPOSSIBLE claim is refused with its message |
| ShuffledAnagrams.ExampleNotAnagram | kickstart/2021/round_e/shuffled_anagrams/output_validators/validator/custom_judge.cc:377-378 | the source's self-test: a non-anagram is refused |
| ShuffledAnagrams.ExampleUpperCase | kickstart/2021/round_e/shuffled_anagrams/output_validators/validator/custom_judge.cc:379 | the source's self-test: a capital letter gives the range error |
| ShuffledAnagrams.ExampleRotation | kickstart/2021/round_e/shuffled_anagrams/output_validators/validator/custom_judge.cc:380 | the source's self-test: a rotation is accepted |
| ShuffledAnagrams.ExampleRepeatedLetters | kickstart/2021/round_e/shuffled_anagrams/output_validators/validator/custom_judge.cc:381 | the source's self-test: the reference answer itself is accepted |
| ShuffledAnagrams.ExampleBothImpossible | kickstart/2021/round_e/shuffled_anagrams/output_validators/validator/custom_judge.cc:382-383 | the source's self-test: IMPOSSIBLE on both sides is accepted |
| JoinTheRanks.Cut | codejam/2020/round_1b/join_the_ranks/output_validators/validator/custom_judge.py:198-199 | one operation moves card i to Step(op, i), so the result is the deck rearranged |
| JoinTheRanks.ApplyOperations | codejam/2020/round_1b/join_the_ranks/output_validators/validator/custom_judge.py:194-204 | the result keeps the deck's length and holds card i at position arrange(i), the position the source computes |
| JoinTheRanks.CutPermutes | codejam/2020/round_1b/join_the_ranks/output_validators/validator/custom_judge.py:194-204 | one cut only rearranges the deck |
| JoinTheRanks.ApplyOperationsPermutes | codejam/2020/round_1b/join_the_ranks/output_validators/validator/custom_judge.py:194-204 | the operations only rearrange the deck |
| JoinTheRanks.ArrangeInjective | codejam/2020/round_1b/join_the_ranks/output_validators/validator/custom_judge.py:197-203 | distinct cards land on distinct positions, so the source's dictionary loses no card |
| JoinTheRanks.ApplyFirst | codejam/2020/round_1b/join_the_ranks/output_validators/validator/custom_judge.py:194-204 | the operations apply in order, the first one first |
| JoinTheRanks.ApplyOperationsExampleSwap | codejam/2020/round_1b/join_the_ranks/output_validators/validator/custom_judge.py:460 | the source's self-test: (1, 1) swaps the first two cards |
| JoinTheRanks.ApplyOperationsExampleBlocks | codejam/2020/round_1b/join_the_ranks/output_validators/validator/custom_judge.py:461 | the source's self-test: (2, 2) swaps the first two pairs |
| JoinTheRanks.ApplyOperationsExampleTwo | codejam/2020/round_1b/join_the_ranks/output_validators/validator/custom_judge.py:462-463 | the source's self-test: two operations in a row |
| JoinTheRanks.StartDeck | codejam/2020/round_1b/join_the_ranks/output_validators/validator/custom_judge.py:263 | the starting deck holds R*S cards, each a rank below R |
| JoinTheRanks.RequiredOps | codejam/2020/round_1b/join_the_ranks/output_validators/validator/custom_judge.py:233 | the required count is R(S-1)/2 rounded up |
| JoinTheRanks.FirstInvalid | codejam/2020/round_1b/join_the_ranks/output_validators/validator/custom_judge.py:254-260 | no error iff every operation has positive a and b with a+b at most the deck size; too large is checked before too small |
| JoinTheRanks.VerifyOutput | codejam/2020/round_1b/join_the_ranks/output_validators/validator/custom_judge.py:207-267 | None iff the answer is accepted: a count line equal to the required count, one line of two integers per operation, all valid, and the deck sorted after them; a wrong count gives its message |
| JoinTheRanks.VerifyCase | codejam/2020/round_1b/join_the_ranks/output_validators/validator/custom_judge.py:270-286 | an error in our output comes back marked as ours; the case passes iff both answers are accepted |
| PascalWalk.ChooseFactorial | codejam/2020/round_1a/pascal_walk/output_validators/validator/custom_judge.py:196-201 | the entries Pascal's rule builds are the binomial coefficients r! / (k! (r-k)!) |
| PascalWalk.ChooseSymmetric | codejam/2020/round_1a/pascal_walk/output_validators/validator/custom_judge.py:196-201 | each row of the triangle is symmetric |
| PascalWalk.CappedChoose | codejam/2020/round_1a/pascal_walk/output_validators/validator/custom_judge.py:201 | capping every sum at INFINITY caps the coefficient itself: the table holds min(C(r, k), INFINITY) |
| PascalWalk.BinomialTable.constructor | codejam/2020/round_1a/pascal_walk/output_validators/validator/custom_judge.py:186 | the table starts empty |
| PascalWalk.BinomialTable.PrecomputeBinomialCoefficients | codejam/2020/round_1a/pascal_walk/output_validators/validator/custom_judge.py:189-201 | after the call the table is filled with the capped coefficients; a filled table is left as it was |
| PascalWalk.NextRow | codejam/2020/round_1a/pascal_walk/output_validators/validator/custom_judge.py:198-201 | given row r - 1 of the capped triangle, the row built holds the capped coefficient of (r, k) at every k up to MAX_STEPS, zero past r |
| PascalWalk.BinomialTable.BinomialCoefficient | codejam/2020/round_1a/pascal_walk/output_validators/validator/custom_judge.py:204-222 | an error with the source's message iff r or k exceeds MAX_STEPS, otherwise min(C(r, k), INFINITY); the table is filled afterwards |
| PascalWalk.CappedTotalExact | codejam/2020/round_1a/pascal_walk/output_validators/validator/custom_judge.py:301-312 | the capped running sum never exceeds the exact sum, equals it below INFINITY, and reaches N iff the exact sum does |
| PascalWalk.WalkDepth | codejam/2020/round_1a/pascal_walk/output_validators/validator/custom_judge.py:284-299 | a walk from the top of adjacent steps is at most one row deeper per step |
| PascalWalk.Pairs | codejam/2020/round_1a/pascal_walk/output_validators/validator/custom_judge.py:270-275 | lines are read as positions iff each holds exactly two values, and then each position is its line's pair |
| PascalWalk.ParsePositions | codejam/2020/round_1a/pascal_walk/output_validators/validator/custom_judge.py:264-278 | the first loop succeeds iff every line holds two integers naming a position inside the triangle, and returns those positions |
| PascalWalk.PositionValue | codejam/2020/round_1a/pascal_walk/output_validators/validator/custom_judge.py:302 | the table's entry at a position is min(C(r-1, k-1), INFINITY) |
| PascalWalk.WalkSum | codejam/2020/round_1a/pascal_walk/output_validators/validator/custom_judge.py:288-312 | no error iff consecutive positions are adjacent and the capped sum equals N; "sum too large" only when the sum exceeds N |
| PascalWalk.VerifyOutput | codejam/2020/round_1a/pascal_walk/output_validators/validator/custom_judge.py:235-314 | None iff the answer is accepted: header line, 1 to MAX_STEPS steps of two integers, positions in the triangle, unique, starting at (1, 1), adjacent, adding up to N; too many steps gets its message |
| PascalWalk.VerifyCase | codejam/2020/round_1a/pascal_walk/output_validators/validator/custom_judge.py:317-337 | the case passes iff both our output and the attempt are accepted; our errors are marked as ours |
| CoinJam.ToBase | codejam/2016/qualification_round/coin_jam/output_validators/validator/custom_judge.py:191-198 | the loop returns the value of the digit string in base b |
| CoinJam.ValueHorner | codejam/2016/qualification_round/coin_jam/output_validators/validator/custom_judge.py:191-198 | reading one more digit multiplies the value read so far by the base and adds the digit |
| CoinJam.CoinPositive | codejam/2016/qualification_round/coin_jam/output_validators/validator/custom_judge.py:252-253 | a coin starting with 1 has a positive value in every base from 2 on |
| CoinJam.CheckJamcoin | codejam/2016/qualification_round/coin_jam/output_validators/validator/custom_judge.py:201-210 | the loop returns exactly ProofError: the first divisor equal to the coin's value in its base or not dividing it |
| CoinJam.ProofErrorNone | codejam/2016/qualification_round/coin_jam/output_validators/validator/custom_judge.py:201-210 | the proof passes iff every divisor is a proper divisor of the coin's value in base 2 + its index, so every such value is composite |
| CoinJam.ParseDivisors | codejam/2016/qualification_round/coin_jam/output_validators/validator/custom_judge.py:257-261 | the divisors are read iff each token is an integer of at least 2, and then they are those integers |
| CoinJam.ParsePrefixError | codejam/2016/qualification_round/coin_jam/output_validators/validator/custom_judge.py:257-261 | the first unreadable divisor decides the error |
| CoinJam.LineErrorNone | codejam/2016/qualification_round/coin_jam/output_validators/validator/custom_judge.py:243-264 | one line passes iff it is a valid jamcoin line (length, ends, characters, ten values, proof) and its coin is new |
| CoinJam.LinesErrorNone | codejam/2016/qualification_round/coin_jam/output_validators/validator/custom_judge.py:241-265 | the lines pass iff each is a valid jamcoin line and their coins are distinct and new |
| CoinJam.VerdictOneCase | codejam/2016/qualification_round/coin_jam/output_validators/validator/custom_judge.py:213-265 | with the one case the problem has, the output is accepted iff it has the case header, exactly J jamcoin lines, each valid, and no coin repeated |
| CoinJam.MiddleBinary | codejam/2016/qualification_round/coin_jam/output_validators/validator/custom_judge.py:254-256 | true iff every inner character of the coin is 0 or 1 |
| CoinJam.ParseAll | codejam/2016/qualification_round/coin_jam/output_validators/validator/custom_judge.py:257-261 | the loop returns exactly ParseDivisors |
| CoinJam.CheckLine | codejam/2016/qualification_round/coin_jam/output_validators/validator/custom_judge.py:243-265 | the per-line checks return exactly LineError |
| CoinJam.CheckLines | codejam/2016/qualification_round/coin_jam/output_validators/validator/custom_judge.py:241-265 | the pass over a case's lines returns exactly LinesError |
| CoinJam.FindError | codejam/2016/qualification_round/coin_jam/output_validators/validator/custom_judge.py:213-265 | the source's FindError returns exactly Verdict |
| CoinJam.SecondCaseRejected | codejam/2016/qualification_round/coin_jam/output_validators/validator/custom_judge.py:224-233 | with two or more cases nothing is accepted, because every case re-reads the first output line as its header, as the judge's one-case assumption says |
| FallingBalls.Simulate | codejam/2018/round_2/falling_balls/output_validators/validator/custom_judge.py:245-273 | the balls under each column after the grid, one ball starting in every column; one count per column |
| FallingBalls.RowError | codejam/2018/round_2/falling_balls/output_validators/validator/custom_judge.py:248-264 | a line that passes is one token of C cells with '.' at both edges |
| FallingBalls.RowErrorNone | codejam/2018/round_2/falling_balls/output_validators/validator/custom_judge.py:248-264 | a line of rows passes iff it is one token forming an allowed row: C cells of dot, slash or backslash, both edges dots, no backslash followed by a slash, and only dots on the last row |
| FallingBalls.ScanNone | codejam/2018/round_2/falling_balls/output_validators/validator/custom_judge.py:260-264 | the scan finds nothing iff no later cell breaks the bottom-row rule or the V-shape rule, and a failure names the rule broken |
| FallingBalls.RunSimulates | codejam/2018/round_2/falling_balls/output_validators/validator/custom_judge.py:247-273 | running the rows succeeds iff every row passes, and then the balls are those of Simulate over the rows |
| FallingBalls.Compare | codejam/2018/round_2/falling_balls/output_validators/validator/custom_judge.py:278-288 | no error iff no row count was expected or it equals the rows given; otherwise more or fewer rows are reported |
| FallingBalls.VerifyAccepts | codejam/2018/round_2/falling_balls/output_validators/validator/custom_judge.py:208-288 | an answer is accepted iff it is IMPOSSIBLE and no layout was expected, or a layout whose balls match the case with the expected row count or none expected |
| FallingBalls.VerifyCaseAccepts | codejam/2018/round_2/falling_balls/output_validators/validator/custom_judge.py:291-306 | the case passes iff our answer passes and the attempt passes with our row count |
| FallingBalls.FallSum | codejam/2018/round_2/falling_balls/output_validators/validator/custom_judge.py:265-273 | one allowed row keeps every ball |
| FallingBalls.SimulateSum | codejam/2018/round_2/falling_balls/output_validators/validator/custom_judge.py:245-273 | through any number of allowed rows the C balls stay C |
| FallingBalls.LayoutConservesBalls | codejam/2018/round_2/falling_balls/output_validators/validator/custom_judge.py:275-276 | an accepted layout exists only when the case's ball counts add up to C |
| FallingBalls.CheckRow | codejam/2018/round_2/falling_balls/output_validators/validator/custom_judge.py:248-264 | the judge's checks on one line, cell by cell, return exactly RowError |
| FallingBalls.FallRow | codejam/2018/round_2/falling_balls/output_validators/validator/custom_judge.py:265-273 | the balls scattered column by column are exactly Fall of the row |
| FallingBalls.VerifyOutput | codejam/2018/round_2/falling_balls/output_validators/validator/custom_judge.py:208-288 | the judge's VerifyOutput returns exactly the error and row count Verify defines |
| ThreeDPrinting.ProtoEscape | codejam/2022/qualification_round/3d_printing/output_validators/validator/custom_judge.cpp:33-58 | the loop's result is the concatenation of every character's escape |
| ThreeDPrinting.EscapedQuotable | codejam/2022/qualification_round/3d_printing/output_validators/validator/custom_judge.cpp:33-58 | every character of the escaped message has a code from 32 to 127 (DEL included, no newline) and every quote has a backslash just before it |
| ThreeDPrinting.EscapedBackslashBreaks | codejam/2022/qualification_round/3d_printing/output_validators/validator/custom_judge.cpp:33-58 | as written, the message backslash-quote is escaped to text whose quote ends the quoted string, and a lone backslash leaves a trailing escape |
| ThreeDPrinting.FixedEscapedReadsBack | codejam/2022/qualification_round/3d_printing/output_validators/validator/custom_judge.cpp:33-58 | with backslashes doubled and octal numbered escapes, reading the quoted text gives every message back |
| ThreeDPrinting.EscapesSpecials | codejam/2022/qualification_round/3d_printing/output_validators/validator/custom_judge.cpp:36-46 | newline, single quote and double quote come out as backslash-n, backslash-quote and backslash-double-quote |
| ThreeDPrinting.EscapeCollides | codejam/2022/qualification_round/3d_printing/output_validators/validator/custom_judge.cpp:48-53 | as written, the numbered escape of character 0 and of character 4 are the same text |
| ThreeDPrinting.OctalEscapeInjective | codejam/2022/qualification_round/3d_printing/output_validators/validator/custom_judge.cpp:48-53 | with octal digits (masks of 7), distinct characters get distinct numbered escapes |
| ThreeDPrinting.Amount | codejam/2022/qualification_round/3d_printing/output_validators/validator/custom_judge.cpp:130-153 | an amount that is read lies in [0, 10^6] |
| ThreeDPrinting.AmountsAccepted | codejam/2022/qualification_round/3d_printing/output_validators/validator/custom_judge.cpp:382-387 | a line of amounts is read iff every token is "-" or an integer in [0, 10^6], and then each amount is its token's value |
| ThreeDPrinting.AmountsErrStays | codejam/2022/qualification_round/3d_printing/output_validators/validator/custom_judge.cpp:382-387 | the first refused amount decides the error; later tokens do not change it |
| ThreeDPrinting.ParseCaseOutput | codejam/2022/qualification_round/3d_printing/output_validators/validator/custom_judge.cpp:369-389 | the loop over the four amounts reads the case line as the specification function does, with its errors |
| ThreeDPrinting.AnswerLineRoundTrip | codejam/2022/qualification_round/3d_printing/output_validators/validator/custom_judge.cpp:369-389 | writing four in-range amounts for case k and reading that line for case k gives them back |
| ThreeDPrinting.ImpossibleLineRoundTrip | codejam/2022/qualification_round/3d_printing/output_validators/validator/custom_judge.cpp:378-381 | the line "Case #k: IMPOSSIBLE" is read as the empty answer |
| ThreeDPrinting.CheckNumbers | codejam/2022/qualification_round/3d_printing/output_validators/validator/custom_judge.cpp:423-434 | "too much ink" iff some colour exceeds some printer's supply; otherwise a wrong total iff the amounts do not add up to 10^6; accepted iff the amounts fit every printer and add up to 10^6 |
| ThreeDPrinting.JudgeCase | codejam/2022/qualification_round/3d_printing/output_validators/validator/custom_judge.cpp:472-477 | an answer with amounts is accepted iff it fits; "impossible" is accepted iff the judge's answer is "impossible" too, and otherwise refused with the claimed-impossible message |
| ThreeDPrinting.FitsNeedsInk | codejam/2022/qualification_round/3d_printing/output_validators/validator/custom_judge.cpp:423-434 | an accepted answer exists only when the least supplies of the four colours add up to at least 10^6 |
| HackedExam.NatString | codejam/2021/round_1a/hacked_exam/output_validators/validator/custom_judge.cc:46-52 | the do-while loop yields the canonical decimal digits of the number |
| HackedExam.Strint128 | codejam/2021/round_1a/hacked_exam/output_validators/validator/custom_judge.cc:42-53 | the printed text is the number's decimal form, with a minus sign for negatives |
| HackedExam.LengthChecks | codejam/2021/round_1a/hacked_exam/output_validators/validator/custom_judge.cc:90-93 | after the leading zeros are stripped, the three length checks pass iff the magnitude is at most 10^38 |
| HackedExam.ParseInt128Checks | codejam/2021/round_1a/hacked_exam/output_validators/validator/custom_judge.cc:76-93 | on a token of the right characters, the stripped length checks pass iff its value lies in [-10^38, 10^38] |
| HackedExam.ReadDigits | codejam/2021/round_1a/hacked_exam/output_validators/validator/custom_judge.cc:94-96 | the accumulating loop returns the value of the digits |
| HackedExam.DigitsAfterFirst | codejam/2021/round_1a/hacked_exam/output_validators/validator/custom_judge.cc:77-78 | the loop passes iff every character after the first is a digit |
| HackedExam.SkipZeros | codejam/2021/round_1a/hacked_exam/output_validators/validator/custom_judge.cc:86 | the loop skips only zeros and stops at a non-zero or at the last character |
| HackedExam.ParseInt128AsWritten | codejam/2021/round_1a/hacked_exam/output_validators/validator/custom_judge.cc:75-101 | as written, a lone "-" is read as 0; every other token is read iff it is an integer in [-10^38, 10^38], as its value |
| HackedExam.ParseInt128 | codejam/2021/round_1a/hacked_exam/output_validators/validator/custom_judge.cc:75-101 | a token is read iff it is an optional minus and digits whose value lies in [-10^38, 10^38], as that value |
| HackedExam.DashRejected | codejam/2021/round_1a/hacked_exam/output_validators/validator/custom_judge.cc:104-131 | a lone "-" is not an integer in range, as the reader's tests expect of non-numbers |
| HackedExam.ParseStrint | codejam/2021/round_1a/hacked_exam/output_validators/validator/custom_judge.cc:42-101 | every integer in [-10^38, 10^38] printed by Strint128 is read back as itself |
| HackedExam.LeadingZerosRead | codejam/2021/round_1a/hacked_exam/output_validators/validator/custom_judge.cc:104-118 | leading zeros in front of the digits do not change what is read |
| HackedExam.ParseCaseOutput | codejam/2021/round_1a/hacked_exam/output_validators/validator/custom_judge.cc:464-470 | a case is read iff it is one line of two tokens, as the answer and the fraction |
| HackedExam.AnswerErrorNone | codejam/2021/round_1a/hacked_exam/output_validators/validator/custom_judge.cc:479-487 | the per-question loop finds no error iff every answer is f or t and agrees with the optimal answer wherever that is not '?' |
| HackedExam.VerdictAccepted | codejam/2021/round_1a/hacked_exam/output_validators/validator/custom_judge.cc:472-494 | an attempt is accepted iff it has q answers, each f or t and agreeing with the optimal answer where that is not '?', and the judge's fraction |
| HackedExam.OptimalAccepted | codejam/2021/round_1a/hacked_exam/output_validators/validator/custom_judge.cc:443-457 | the judge's own answer, with each '?' answered either way, is accepted |
| HackedExam.JudgeCase | codejam/2021/round_1a/hacked_exam/output_validators/validator/custom_judge.cc:472-494 | the method returns the verdict the specification function gives |
| Indicium.VerifyOutput | codejam/2020/qualification_round/indicium/output_validators/validator/custom_judge.py:201-259 | the loops over rows and columns return the error and the claim the specification function gives |
| Indicium.CheckSquareAccepts | codejam/2020/qualification_round/indicium/output_validators/validator/custom_judge.py:240-259 | the row-length, row, column and diagonal checks pass iff the rows form a Latin square of size n whose trace is k |
| Indicium.VerifyAccepts | codejam/2020/qualification_round/indicium/output_validators/validator/custom_judge.py:214-259 | an output passes iff it is IMPOSSIBLE alone, or POSSIBLE followed by n rows of integers forming a Latin square of size n and trace k; a passing output claims a square exactly when it starts with POSSIBLE |
| Indicium.VerifyCaseAccepts | codejam/2020/qualification_round/indicium/output_validators/validator/custom_judge.py:262-289 | a case is accepted iff both outputs pass and make the same claim; a contestant claiming a square the reference does not find gets the reference-error message |
| Indicium.OnceEach | codejam/2020/qualification_round/indicium/output_validators/validator/custom_judge.py:245-248 | a row of n numbers whose set is 1..n holds each number once |
| Indicium.LatinSquareDistinct | codejam/2020/qualification_round/indicium/output_validators/validator/custom_judge.py:245-254 | in an accepted square no number repeats in a row or in a column |
| RobotProgrammingStrategy.WinStrict | codejam/2019/round_1c/robot_programming_strategy/output_validators/validator/custom_judge.py:206-215 | no move beats itself, and of two moves at most one beats the other |
| RobotProgrammingStrategy.WinDecides | codejam/2019/round_1c/robot_programming_strategy/output_validators/validator/custom_judge.py:206-215 | of two different moves among R, P and S exactly one beats the other |
| RobotProgrammingStrategy.ZValueLongest | codejam/2019/round_1c/robot_programming_strategy/output_validators/validator/custom_judge.py:218-219 | the Z value at i is the largest k with s[..k] equal to s[i..i+k] |
| RobotProgrammingStrategy.GetZArray | codejam/2019/round_1c/robot_programming_strategy/output_validators/validator/custom_judge.py:218-240 | every entry from 1 on is the Z value of the string at that position, and entry 0 is 0 |
| RobotProgrammingStrategy.BeatsAsymmetric | codejam/2019/round_1c/robot_programming_strategy/output_validators/validator/custom_judge.py:243-258 | two programs cannot beat each other |
| RobotProgrammingStrategy.NoSelfWin | codejam/2019/round_1c/robot_programming_strategy/output_validators/validator/custom_judge.py:243-258 | no program beats itself |
| RobotProgrammingStrategy.Periodic | codejam/2019/round_1c/robot_programming_strategy/output_validators/validator/custom_judge.py:250-258 | equal moves over one common period of both programs mean equal moves in every round |
| RobotProgrammingStrategy.IsProgramWin | codejam/2019/round_1c/robot_programming_strategy/output_validators/validator/custom_judge.py:243-258 | the result is true iff, at the first round where the two cyclic programs play different moves, a's move beats b's |
| RobotProgrammingStrategy.CheckMoves | codejam/2019/round_1c/robot_programming_strategy/output_validators/validator/custom_judge.py:288-290 | the loop passes iff every character is P, R or S in either case |
| RobotProgrammingStrategy.CheckBeatsAll | codejam/2019/round_1c/robot_programming_strategy/output_validators/validator/custom_judge.py:291-293 | the loop passes iff the program beats every opponent |
| RobotProgrammingStrategy.VerifyOutput | codejam/2019/round_1c/robot_programming_strategy/output_validators/validator/custom_judge.py:261-301 | the method returns the error and claim the specification function gives |
| RobotProgrammingStrategy.VerifyAccepts | codejam/2019/round_1c/robot_programming_strategy/output_validators/validator/custom_judge.py:276-301 | an output passes iff it is one token of at most 500 characters that is IMPOSSIBLE in any case or a program of P, R and S beating every opponent, and agrees with the expected claim when one is given |
| RobotProgrammingStrategy.VerifyCase | codejam/2019/round_1c/robot_programming_strategy/output_validators/validator/custom_judge.py:304-319 | the method returns the verdict the specification function gives |
| RobotProgrammingStrategy.JudgeAccepts | codejam/2019/round_1c/robot_programming_strategy/output_validators/validator/custom_judge.py:304-319 | with a valid reference output, an attempt is accepted iff it passes on its own and makes the same claim |
| PatternMatching.KmpPreprocess | codejam/2020/round_1a/pattern_matching/output_validators/validator/custom_judge.cc:347-359 | entry i is the length of the longest proper border of the pattern's first i + 1 characters |
| PatternMatching.NextBorder | codejam/2020/round_1a/pattern_matching/output_validators/validator/custom_judge.cc:349-356 | given the longest borders of all shorter prefixes, falling back through them yields the longest proper border of the first i + 1 characters |
| PatternMatching.NextMatchEndIndex | codejam/2020/round_1a/pattern_matching/output_validators/validator/custom_judge.cc:361-377 | the result is the last index of the first occurrence starting at or after the start index, or INT_MAX iff there is none |
| PatternMatching.GlobLiteral | codejam/2020/round_1a/pattern_matching/output_validators/validator/custom_judge.cc:407-410 | a pattern without stars matches only itself |
| PatternMatching.GlobStarStar | codejam/2020/round_1a/pattern_matching/output_validators/validator/custom_judge.cc:449-450 | two stars in a row match what one does |
| PatternMatching.GlobPiece | codejam/2020/round_1a/pattern_matching/output_validators/validator/custom_judge.cc:425-440 | between two stars a fixed piece must occur, and matching it at its first occurrence loses no match |
| PatternMatching.StripEnd | codejam/2020/round_1a/pattern_matching/output_validators/validator/custom_judge.cc:412-419 | one stripping round succeeds iff the string ends with the pattern's fixed end (the characters after its last '*'), and then both lose that end; a string too short to hold it is refused |
| PatternMatching.StripFixedEnds | codejam/2020/round_1a/pattern_matching/output_validators/validator/custom_judge.cc:412-423 | stripping the fixed end and then the fixed beginning keeps the verdict: the stripped pair matches iff the original pair does, and a refusal means no match |
| PatternMatching.MatchPieces | codejam/2020/round_1a/pattern_matching/output_validators/validator/custom_judge.cc:425-442 | with stars at both ends, the greedy search for the pieces succeeds iff the string matches the pattern |
| PatternMatching.FindPiece | codejam/2020/round_1a/pattern_matching/output_validators/validator/custom_judge.cc:428-435 | when the piece is found the string from the new index matches the rest of the pattern exactly when the string from the old index matched star, piece, star and the rest; when it is not found no match exists |
| PatternMatching.PatternMatch | codejam/2020/round_1a/pattern_matching/output_validators/validator/custom_judge.cc:407-443 | the result is true iff the string matches the pattern, '*' standing for any run of characters |
| PatternMatching.StripEndAsWritten | codejam/2020/round_1a/pattern_matching/output_validators/validator/custom_judge.cc:413-419 | as written, the loop compares last characters without checking that the string is not empty |
| PatternMatching.StripReadsBeforeStart | codejam/2020/round_1a/pattern_matching/output_validators/validator/custom_judge.cc:413-419 | for the string "a" and the pattern "a*a" the second round reads the last character of an empty string |
| PatternMatching.JudgeCase | codejam/2020/round_1a/pattern_matching/output_validators/validator/custom_judge.cc:465-489 | "*" is accepted iff the reference also has no answer; any other answer is accepted iff it is 1 to 10^4 lower-case letters matching every pattern, and otherwise gets the message of its first failed check |
| RuralPlanning.Sign | codejam/2013/round_3/rural_planning/output_validators/validator/custom_judge.py:1173-1179 | the sign is -1, 0 or 1, agrees with the number's sign, and is 0 only for 0 |
| RuralPlanning.HalfConvexHull | codejam/2013/round_3/rural_planning/output_validators/validator/custom_judge.py:1192-1206 | the chain is empty only for no points, runs from the first point to the last, turns strictly left at every inner point, and picks input points in order |
| RuralPlanning.HullPush | codejam/2013/round_3/rural_planning/output_validators/validator/custom_judge.py:1203-1206 | one round of the loop: after popping the points that do not turn left towards point i and appending it, the chain still turns left everywhere, picks input points in order, starts at the first point and ends at point i |
| RuralPlanning.ConvexHull | codejam/2013/round_3/rural_planning/output_validators/validator/custom_judge.py:1209-1223 | the hull is the lower chain over the sorted points and the upper chain over them reversed, each without its last point, each a chain of left turns from the least to the greatest point or back |
| RuralPlanning.SortedEnds | codejam/2013/round_3/rural_planning/output_validators/validator/custom_judge.py:1209-1223 | the sorted points are the input points, with the least first and the greatest last |
| RuralPlanning.PicksFrom | codejam/2013/round_3/rural_planning/output_validators/validator/custom_judge.py:1192-1206 | every point of a chain is an input point |
| RuralPlanning.AreaTimes2 | codejam/2013/round_3/rural_planning/output_validators/validator/custom_judge.py:1226-1232 | the loop returns the absolute value of the shoelace sum |
| RuralPlanning.ShoelaceRotate | codejam/2013/round_3/rural_planning/output_validators/validator/custom_judge.py:1226-1232 | starting the polygon at its second vertex does not change its signed area |
| RuralPlanning.ShoelaceReverse | codejam/2013/round_3/rural_planning/output_validators/validator/custom_judge.py:1226-1232 | listing the vertices the other way round negates the signed area |
| RuralPlanning.ShoelaceShift | codejam/2013/round_3/rural_planning/output_validators/validator/custom_judge.py:1226-1232 | moving every vertex by the same vector does not change the signed area |
| RuralPlanning.AreaOrientationFree | codejam/2013/round_3/rural_planning/output_validators/validator/custom_judge.py:1226-1232 | the measured area does not depend on where the listing starts or which way it runs |
| RuralPlanning.CheckNoDuplicates | codejam/2013/round_3/rural_planning/output_validators/validator/custom_judge.py:1245-1256 | the result is None iff no number occurs twice, and otherwise the smallest number occurring twice, the one the source reports |
| RuralPlanning.NoRepeat | codejam/2013/round_3/rural_planning/output_validators/validator/custom_judge.py:1245-1256 | a sorted list with no equal neighbours repeats nothing, and neither does any rearrangement of it |
| RuralPlanning.CompareSegments | codejam/2013/round_3/rural_planning/output_validators/validator/custom_judge.py:1259-1296 | the answer is -1, 0 or 1, and a refusal is the intersection of two different segments |
| RuralPlanning.CompareSegmentsZero | codejam/2013/round_3/rural_planning/output_validators/validator/custom_judge.py:1259-1296 | against a proper segment, only the segment itself compares equal |
| RuralPlanning.CompareSegmentsSharedEndpoint | codejam/2013/round_3/rural_planning/output_validators/validator/custom_judge.py:1259-1296 | two segments sharing an endpoint compare in opposite ways from either side |
| RuralPlanning.JudgeCase | codejam/2013/round_3/rural_planning/output_validators/validator/custom_judge.py:1345-1376 | one line of n tokens, each an index below n, none repeated, listing a polygon that is simple and has more than half the hull's area, is accepted, and nothing else is; a wrong line or token count, a bad token or a repeated number gets its message |
| ProgramWithinAProgram.ParseAction | codejam/2011/world_finals/program_within_a_program/output_validators/validator/custom_judge.py:256-258 | an action token is read iff it is w, e or r |
| ProgramWithinAProgram.ParseLine | codejam/2011/world_finals/program_within_a_program/output_validators/validator/custom_judge.py:251-280 | an accepted instruction line has its memory values in range, and a line of neither 4 nor 6 tokens gets the token-count message |
| ProgramWithinAProgram.ParseLineAccepted | codejam/2011/world_finals/program_within_a_program/output_validators/validator/custom_judge.py:251-275 | an accepted line is "s t -> r" for a stop and "s t -> a s2 t2" for a move |
| ProgramWithinAProgram.ParseShowLine | codejam/2011/world_finals/program_within_a_program/output_validators/validator/custom_judge.py:251-280 | every valid instruction, written out as a contestant would, reads back as itself |
| ProgramWithinAProgram.CollectStep | codejam/2011/world_finals/program_within_a_program/output_validators/validator/custom_judge.py:283-286 | one more line adds its entry to the table, or its own error or the duplicate-instruction error ends the reading |
| ProgramWithinAProgram.CollectErrorStays | codejam/2011/world_finals/program_within_a_program/output_validators/validator/custom_judge.py:248-287 | the first bad line decides the error; later lines do not change it |
| ProgramWithinAProgram.ReadTableValid | codejam/2011/world_finals/program_within_a_program/output_validators/validator/custom_judge.py:248-287 | every entry of a table that was read passed the line checks, its memory values in range |
| ProgramWithinAProgram.ReadShowLines | codejam/2011/world_finals/program_within_a_program/output_validators/validator/custom_judge.py:248-287 | valid instructions with distinct keys, written out, read back as their table |
| ProgramWithinAProgram.ReadCountOk | codejam/2011/world_finals/program_within_a_program/output_validators/validator/custom_judge.py:232-243 | a count line is accepted iff it reads "case #c: n" with n an integer from 0 to the instruction limit, and then n is its count |
| ProgramWithinAProgram.ReadCaseValid | codejam/2011/world_finals/program_within_a_program/output_validators/validator/custom_judge.py:228-287 | a case that was read has a table of at most the limit's entries, all in range |
| ProgramWithinAProgram.ParseValid | codejam/2011/world_finals/program_within_a_program/output_validators/validator/custom_judge.py:197-292 | an accepted output has one valid table per case and no line left over |
| ProgramWithinAProgram.ReadShownCount | codejam/2011/world_finals/program_within_a_program/output_validators/validator/custom_judge.py:232-243 | a written count line reads back as its count |
| ProgramWithinAProgram.ReadInstructions | codejam/2011/world_finals/program_within_a_program/output_validators/validator/custom_judge.py:248-287 | the inner loop reads a case's instruction lines as the specification function does |
| ProgramWithinAProgram.ReadOneCase | codejam/2011/world_finals/program_within_a_program/output_validators/validator/custom_judge.py:228-287 | one pass of the outer loop reads one case as the specification function does |
| ProgramWithinAProgram.ParseAttempt | codejam/2011/world_finals/program_within_a_program/output_validators/validator/custom_judge.py:197-292 | the loops read the whole output, or stop with its first error, as the specification function does |
| ProgramWithinAProgram.Step | codejam/2011/world_finals/program_within_a_program/output_validators/validator/custom_judge.py:318-332 | a move looks up (state, cell): a missing instruction is reported, a stop keeps the position, any other writes the cell, takes the new state and moves one cell west or east |
| ProgramWithinAProgram.RunStopsIff | codejam/2011/world_finals/program_within_a_program/output_validators/validator/custom_judge.py:313-335 | the robot stops at p within the move limit iff some configuration it reaches before the limit stops there |
| ProgramWithinAProgram.MoreMoves | codejam/2011/world_finals/program_within_a_program/output_validators/validator/custom_judge.py:313-335 | allowing more moves does not change the outcome of a run that ended |
| ProgramWithinAProgram.Verdict | codejam/2011/world_finals/program_within_a_program/output_validators/validator/custom_judge.py:326-335 | the verdict is None iff the robot stopped where expected |
| ProgramWithinAProgram.Execute | codejam/2011/world_finals/program_within_a_program/output_validators/validator/custom_judge.py:295-335 | the loop returns None iff the robot, run from the start, stops at the expected position within the move limit, and otherwise the message for how the run ended |
| Fractiles.Influence | codejam/2016/qualification_round/fractiles/output_validators/validator/custom_judge.py:246-263 | a tile depends on at most C original tiles, each numbered from 1 to K |
| Fractiles.TileInfluence | codejam/2016/qualification_round/fractiles/output_validators/validator/custom_judge.py:246-263 | the loop collects one original per base-K digit of n - 1, lowest first, as the specification function does |
| Fractiles.EncodeInfluence | codejam/2016/qualification_round/fractiles/output_validators/validator/custom_judge.py:246-263 | the tile whose base-K digits are ds depends exactly on the originals those digits name |
| Fractiles.CheckCorrectness | codejam/2016/qualification_round/fractiles/output_validators/validator/custom_judge.py:266-295 | the loop gathers the influences tile by tile and decides as the specification function does |
| Fractiles.CorrectCovers | codejam/2016/qualification_round/fractiles/output_validators/validator/custom_judge.py:266-295 | a non-empty answer is correct iff it names at most S tiles that together depend on every original tile |
| Fractiles.CoveredBound | codejam/2016/qualification_round/fractiles/output_validators/validator/custom_judge.py:291-295 | S tiles depend on at most S times C originals |
| Fractiles.TooFewTiles | codejam/2016/qualification_round/fractiles/output_validators/validator/custom_judge.py:281-282 | when S * C < K no answer of at most S tiles depends on every original |
| Fractiles.GroupsSolve | codejam/2016/qualification_round/fractiles/output_validators/validator/custom_judge.py:281-282 | when S * C >= K one tile per group of C originals, S groups in all, solves the case |
| Fractiles.ImpossibleAccepted | codejam/2016/qualification_round/fractiles/output_validators/validator/custom_judge.py:225-226 | IMPOSSIBLE is accepted iff S * C < K, that is, iff no answer exists |
| Fractiles.ParseTilesOk | codejam/2016/qualification_round/fractiles/output_validators/validator/custom_judge.py:232-243 | reading the tiles succeeds iff they are distinct numbers from 1 to K^C, and then gives the set of them |
| Fractiles.ParseAttempt | codejam/2016/qualification_round/fractiles/output_validators/validator/custom_judge.py:197-243 | the loop reads the answer as the specification function does, adding each tile as it is read |
| Fractiles.VerifyCase | codejam/2016/qualification_round/fractiles/output_validators/validator/custom_judge.py:298-315 | the method returns the verdict the specification function gives |
| Fractiles.VerdictTiles | codejam/2016/qualification_round/fractiles/output_validators/validator/custom_judge.py:197-315 | a list of tiles is accepted iff it names 1 to S distinct tiles within the K^C tiles that together depend on every original |
| XMarksTheSpot.Rotate90 | codejam/2013/world_finals/x_marks_the_spot/output_validators/validator/custom_judge.py:188-190 | the cross product of a vector with its quarter turn is its squared length, so the turn is counter-clockwise and the arms are perpendicular |
| XMarksTheSpot.Quadrant | codejam/2013/world_finals/x_marks_the_spot/output_validators/validator/custom_judge.py:197-214 | a point is refused iff it lies on one of the two lines, with the on-the-X message, and otherwise gets a quadrant from 0 to 3 |
| XMarksTheSpot.QuadrantSides | codejam/2013/world_finals/x_marks_the_spot/output_validators/validator/custom_judge.py:210-214 | the quadrant's high bit is the side of the line ab, its low bit the side of the line ac |
| XMarksTheSpot.SameQuadrant | codejam/2013/world_finals/x_marks_the_spot/output_validators/validator/custom_judge.py:197-214 | two points off the X share a quadrant iff they lie on the same side of both lines |
| XMarksTheSpot.ParseFixedPoint | codejam/2013/world_finals/x_marks_the_spot/output_validators/validator/custom_judge.py:220-246 | a value that is read lies within plus or minus 10^18, that is 10^9 scaled by 10^9 |
| XMarksTheSpot.FixedPointValue | codejam/2013/world_finals/x_marks_the_spot/output_validators/validator/custom_judge.py:220-246 | a decimal with at most nine digits after the point is read as its value times 10^9, or refused as out of range when that exceeds 10^18 |
| XMarksTheSpot.TooManyDigits | codejam/2013/world_finals/x_marks_the_spot/output_validators/validator/custom_judge.py:236-237 | more than nine digits after the point are refused |
| XMarksTheSpot.NoDigits | codejam/2013/world_finals/x_marks_the_spot/output_validators/validator/custom_judge.py:232-234 | a token without any digit, such as "-", "." or "-.", is refused |
| XMarksTheSpot.ParseRender | codejam/2013/world_finals/x_marks_the_spot/output_validators/validator/custom_judge.py:220-246 | every scaled value within range, written with nine digits after the point, is read back as itself |
| XMarksTheSpot.CountQuadrants | codejam/2013/world_finals/x_marks_the_spot/output_validators/validator/custom_judge.py:293-297 | the counting loop tallies each point's quadrant, stopping at the first point on the X, as the specification function does |
| XMarksTheSpot.TallyCounts | codejam/2013/world_finals/x_marks_the_spot/output_validators/validator/custom_judge.py:293-297 | the tally succeeds iff no point lies on the X, and then counts each quadrant's points |
| XMarksTheSpot.SplitAccepts | codejam/2013/world_finals/x_marks_the_spot/output_validators/validator/custom_judge.py:293-301 | the counting pass accepts iff no point lies on the X and every quadrant holds a quarter of the points |
| XMarksTheSpot.JudgeCase | codejam/2013/world_finals/x_marks_the_spot/output_validators/validator/custom_judge.py:273-302 | the method returns the verdict the specification function gives |
| XMarksTheSpot.VerdictAccepts | codejam/2013/world_finals/x_marks_the_spot/output_validators/validator/custom_judge.py:273-302 | an answer is accepted iff it is one line of four numbers naming two different points, no input point lies on the X they define, and each quadrant holds a quarter of the points |
| RedBlackTree.Cmp | codejam/2013/round_3/rural_planning/output_validators/validator/custom_judge.py:120-126 | the default comparison is negative, zero or positive exactly when the first key is below, equal to or above the second |
| RedBlackTree.RotateLeft | codejam/2013/round_3/rural_planning/output_validators/validator/custom_judge.py:250-290 | a left rotation keeps the tree's in-order contents |
| RedBlackTree.RotateRight | codejam/2013/round_3/rural_planning/output_validators/validator/custom_judge.py:292-332 | a right rotation keeps the tree's in-order contents |
| RedBlackTree.RotationsInverse | codejam/2013/round_3/rural_planning/output_validators/validator/custom_judge.py:250-332 | a right rotation undoes a left rotation |
| RedBlackTree.InsertStart | codejam/2013/round_3/rural_planning/output_validators/validator/custom_judge.py:439-489 | a new red node hung in place of a sentinel of a red-black tree meets the insert fix-up's invariant |
| RedBlackTree.InsertRecolorKeeps | codejam/2013/round_3/rural_planning/output_validators/validator/custom_judge.py:334-437 | the recolouring case keeps the fix-up invariant and the contents and moves the red node two levels up |
| RedBlackTree.InsertRotateInnerKeeps | codejam/2013/round_3/rural_planning/output_validators/validator/custom_judge.py:334-437 | the inner rotation case keeps the invariant and the contents and turns the red pair to the outer side |
| RedBlackTree.InsertRotateOuterKeeps | codejam/2013/round_3/rural_planning/output_validators/validator/custom_judge.py:334-437 | the outer rotation case keeps the invariant and the contents and leaves a black parent, so the loop ends |
| RedBlackTree.InsertDone | codejam/2013/round_3/rural_planning/output_validators/validator/custom_judge.py:334-437 | when the insert fix-up loop stops, painting the root black leaves a red-black tree |
| RedBlackTree.SpliceKeeps | codejam/2013/round_3/rural_planning/output_validators/validator/custom_judge.py:573-664 | splicing out a node with a sentinel child keeps a red-black tree when the node was red, and otherwise leaves the position the remove fix-up expects |
| RedBlackTree.SpliceElems | codejam/2013/round_3/rural_planning/output_validators/validator/custom_judge.py:573-664 | splicing out a node with a sentinel child removes exactly its entry from the contents |
| RedBlackTree.SuccessorSwap | codejam/2013/round_3/rural_planning/output_validators/validator/custom_judge.py:573-664 | a node with two children takes the key and value of its in-order successor, the next entry of the contents |
| RedBlackTree.SwapThenSplice | codejam/2013/round_3/rural_planning/output_validators/validator/custom_judge.py:573-664 | copying the successor's entry over the removed one and dropping the successor removes exactly one entry |
| RedBlackTree.RemoveRedSiblingKeeps | codejam/2013/round_3/rural_planning/output_validators/validator/custom_judge.py:495-569 | case 1 of the remove fix-up keeps the invariant and the contents and leaves a black sibling under a red parent |
| RedBlackTree.RemoveBlackNephewsKeeps | codejam/2013/round_3/rural_planning/output_validators/validator/custom_judge.py:495-569 | case 2 keeps the invariant and the contents and moves the deficit one level up |
| RedBlackTree.RemoveNearNephewKeeps | codejam/2013/round_3/rural_planning/output_validators/validator/custom_judge.py:495-569 | case 3 keeps the invariant and the contents and makes the far nephew red |
| RedBlackTree.RemoveFarNephewDone | codejam/2013/round_3/rural_planning/output_validators/validator/custom_judge.py:495-569 | case 4 leaves a red-black tree with the same contents and ends the loop |
| RedBlackTree.RemoveDone | codejam/2013/round_3/rural_planning/output_validators/validator/custom_judge.py:495-569 | when the remove fix-up stops, painting the focus black leaves a red-black tree |
| RedBlackTree.BlackHeight | codejam/2013/round_3/rural_planning/output_validators/validator/custom_judge.py:186-201 | the computation succeeds iff every node's two sides have the same black-height, and then returns that height |
| RedBlackTree.HeightBound | codejam/2013/round_3/rural_planning/output_validators/validator/custom_judge.py:186-213 | no path is more than twice as long as the black-height, plus one for a red root |
| RedBlackTree.SizeBound | codejam/2013/round_3/rural_planning/output_validators/validator/custom_judge.py:186-201 | a balanced tree of black-height bh holds at least 2^bh - 1 nodes |
| RedBlackTree.RedBlackHeight | codejam/2013/round_3/rural_planning/output_validators/validator/custom_judge.py:186-213 | a red-black tree of height h holds at least 2^(h/2) - 1 nodes |
| RBTreeMap.InsertAtLeaf | codejam/2013/round_3/rural_planning/output_validators/validator/custom_judge.py:456-485 | a new red node hung where the search fell off a sorted tree keeps it sorted; the key was absent and the dictionary gains it with its value |
| RBTreeMap.RemovePass | codejam/2013/round_3/rural_planning/output_validators/validator/custom_judge.py:495-569 | one turn of the remove fix-up loop keeps the invariant and the contents and strictly decreases the loop's measure |
| RBTreeMap.NextNode | codejam/2013/round_3/rural_planning/output_validators/validator/custom_judge.py:755-774 | the successor is the entry one place further in the contents, holding the next larger key, and the sentinel iff the node holds the largest key |
| RBTreeMap.PrevNode | codejam/2013/round_3/rural_planning/output_validators/validator/custom_judge.py:776-795 | the predecessor is the entry one place earlier, holding the next smaller key, and the sentinel iff the node holds the smallest key |
| RBTreeMap.NextNodeByKey | codejam/2013/round_3/rural_planning/output_validators/validator/custom_judge.py:797-833 | the node with the smallest key above the given key, which need not be in the tree, and the sentinel iff there is none |
| RBTreeMap.PrevNodeByKey | codejam/2013/round_3/rural_planning/output_validators/validator/custom_judge.py:835-871 | the node with the largest key below the given key, and the sentinel iff there is none |
| RBTreeMap.RBTree.constructor | codejam/2013/round_3/rural_planning/output_validators/validator/custom_judge.py:120-144 | a new tree is valid and empty |
| RBTreeMap.RBTree.Len | codejam/2013/round_3/rural_planning/output_validators/validator/custom_judge.py:150 | the count is the number of entries |
| RBTreeMap.RBTree.NonEmpty | codejam/2013/round_3/rural_planning/output_validators/validator/custom_judge.py:155 | true iff the tree holds an entry |
| RBTreeMap.RBTree.FindNode | codejam/2013/round_3/rural_planning/output_validators/validator/custom_judge.py:666-691 | the node holding the key with its value, and the sentinel iff the key is absent |
| RBTreeMap.RBTree.Contains | codejam/2013/round_3/rural_planning/output_validators/validator/custom_judge.py:152-153 | true iff the key is present |
| RBTreeMap.RBTree.SetValue | codejam/2013/round_3/rural_planning/output_validators/validator/custom_judge.py:107 | the node's value is replaced in place: one entry changes, the shape and count stay |
| RBTreeMap.RBTree.RecolorAndRebalanceAfterInsert | codejam/2013/round_3/rural_planning/output_validators/validator/custom_judge.py:334-437 | the loop ends with a red-black tree with the same contents and count |
| RBTreeMap.RBTree.Insert | codejam/2013/round_3/rural_planning/output_validators/validator/custom_judge.py:439-493 | the dictionary maps the key to the new value and is otherwise unchanged, the count grows iff the key was new, and the returned node holds the pair |
| RBTreeMap.RBTree.RecolorAndRebalanceAfterRemove | codejam/2013/round_3/rural_planning/output_validators/validator/custom_judge.py:495-569 | the loop ends with a red-black tree with the same contents and count |
| RBTreeMap.RBTree.RemoveNode | codejam/2013/round_3/rural_planning/output_validators/validator/custom_judge.py:573-664 | removing a node deletes exactly its entry, its key leaves the dictionary and the count drops by one; the sentinel changes nothing |
| RBTreeMap.RBTree.FirstNode | codejam/2013/round_3/rural_planning/output_validators/validator/custom_judge.py:741-746 | the node of the smallest key, at index 0, and the sentinel iff the tree is empty |
| RBTreeMap.RBTree.LastNode | codejam/2013/round_3/rural_planning/output_validators/validator/custom_judge.py:748-753 | the node of the largest key, at the last index, and the sentinel iff the tree is empty |
| RBTreeMap.RBTree.NodesByTraversal | codejam/2013/round_3/rural_planning/output_validators/validator/custom_judge.py:693-730 | the in-order walk with an explicit stack visits every node once, in index order |
| RBTreeMap.RBTree.Nodes | codejam/2013/round_3/rural_planning/output_validators/validator/custom_judge.py:732-739 | FirstNode then NextNode until the sentinel lists every node once, in key order, with its entry |
| RBTreeMap.RBTree.FromMap | codejam/2013/round_3/rural_planning/output_validators/validator/custom_judge.py:878-881 | the new dictionary holds exactly the given pairs |
| RBTreeMap.RBTree.GetItem | codejam/2013/round_3/rural_planning/output_validators/validator/custom_judge.py:892-896 | the value under the key, and KeyError iff the key is absent |
| RBTreeMap.RBTree.SetItem | codejam/2013/round_3/rural_planning/output_validators/validator/custom_judge.py:898-903 | the dictionary maps the key to the value and is otherwise unchanged; the count grows iff the key was new |
| RBTreeMap.RBTree.DelItem | codejam/2013/round_3/rural_planning/output_validators/validator/custom_judge.py:905-910 | the key leaves the dictionary, KeyError iff it was absent, and the count drops iff it was present |
| RBTreeMap.RBTree.Get | codejam/2013/round_3/rural_planning/output_validators/validator/custom_judge.py:912-916 | the value under the key, or the default iff the key is absent |
| RBTreeMap.RBTree.Keys | codejam/2013/round_3/rural_planning/output_validators/validator/custom_judge.py:918-919 | the keys, strictly increasing, exactly those of the dictionary |
| RBTreeMap.RBTree.Values | codejam/2013/round_3/rural_planning/output_validators/validator/custom_judge.py:921-922 | the values, in the order of their keys |
| RBTreeMap.RBTree.Items | codejam/2013/round_3/rural_planning/output_validators/validator/custom_judge.py:924-925 | the pairs, sorted by key, exactly those of the dictionary |
| RBTreeMap.RBTree.Clear | codejam/2013/round_3/rural_planning/output_validators/validator/custom_judge.py:930-934 | the dictionary is empty afterwards |
| RBTreeMap.RBTree.Copy | codejam/2013/round_3/rural_planning/output_validators/validator/custom_judge.py:936-941 | a new valid tree with the same dictionary |
| RBTreeMap.RBTree.Update | codejam/2013/round_3/rural_planning/output_validators/validator/custom_judge.py:943-952 | every pair of the other dictionary is set, overwriting old values, and nothing else changes |
| RBTreeMap.RBTree.SetDefault | codejam/2013/round_3/rural_planning/output_validators/validator/custom_judge.py:954-958 | the present value and no change, or the given value after storing it when the key is absent |
| GameSortPart2.SortedLeast | farewell/round_c/game_sort_part_2/output_validators/validator/custom_judge.cc:116-122 | a sorted string is the smallest arrangement of its letters |
| GameSortPart2.FillFacts | farewell/round_c/game_sort_part_2/output_validators/validator/custom_judge.cc:116-122 | the remaining letters appended in alphabetical order spell exactly that bag of letters, sorted |
| GameSortPart2.Greedy | farewell/round_c/game_sort_part_2/output_validators/validator/custom_judge.cc:85-89 | the matched prefix is the longest prefix of prev whose letters can be taken from cur |
| GameSortPart2.SmallestSound | farewell/round_c/game_sort_part_2/output_validators/validator/custom_judge.cc:78-125 | a non-empty answer is an arrangement of cur that is not below prev |
| GameSortPart2.SmallestLeast | farewell/round_c/game_sort_part_2/output_validators/validator/custom_judge.cc:78-125 | when some arrangement of cur is not below prev, the answer is non-empty and not above any such arrangement |
| GameSortPart2.CountLetters | farewell/round_c/game_sort_part_2/output_validators/validator/custom_judge.cc:79-82 | the counting loop leaves the letter counts of cur |
| GameSortPart2.MatchPrefix | farewell/round_c/game_sort_part_2/output_validators/validator/custom_judge.cc:84-89 | the matching loop stops at the greedy prefix and leaves the counts of the letters not yet used |
| GameSortPart2.Backtrack | farewell/round_c/game_sort_part_2/output_validators/validator/custom_judge.cc:93-114 | the backtracking loop succeeds iff some level at or below the match can be raised, and raises the deepest one to the smallest larger letter left |
| GameSortPart2.StepBack | farewell/round_c/game_sort_part_2/output_validators/validator/custom_judge.cc:108-113 | leaving a level that cannot be raised moves one level down and returns that level's letter of prev to the counts |
| GameSortPart2.RaiseFirst | farewell/round_c/game_sort_part_2/output_validators/validator/custom_judge.cc:98-114 | searching down from a level, the first level that can be raised is the one the specification picks, and none is picked when no level can be raised |
| GameSortPart2.RaiseDeepest | farewell/round_c/game_sort_part_2/output_validators/validator/custom_judge.cc:98-114 | any level that can be raised at or below the start is at or below the level the specification picks, so the picked level is the deepest |
| GameSortPart2.FillLetters | farewell/round_c/game_sort_part_2/output_validators/validator/custom_judge.cc:116-122 | the final loops append the remaining letters in alphabetical order |
| GameSortPart2.SmallestValidPermutation | farewell/round_c/game_sort_part_2/output_validators/validator/custom_judge.cc:78-125 | the method returns the smallest arrangement of cur not below prev, or the empty string when there is none, as the specification function does |
| GameSortPart2.PlayAsBob | farewell/round_c/game_sort_part_2/output_validators/validator/custom_judge.cc:128-139 | the loop returns Bob's greedy play, as the specification function does |
| GameSortPart2.BobWinsIff | farewell/round_c/game_sort_part_2/output_validators/validator/custom_judge.cc:127-139 | Bob's greedy play fails iff no choice of arrangements of the words is sorted, and when it succeeds it is such a choice |
| GameSortPart2.ReadCaseOutput | farewell/round_c/game_sort_part_2/output_validators/validator/custom_judge.cc:63-72 | an answer is read iff its verdict is impossible, or possible with exactly p words on the next line, which become its words; possible with another word count is the reader's error, any other verdict the unrecognized-verdict message |
| GameSortPart2.ReadThenVerify | farewell/round_c/game_sort_part_2/output_validators/validator/custom_judge.cc:66 | a POSSIBLE answer is read and passes VerifyCaseOutput iff the next line holds p words that cut s and no choice of their arrangements is sorted |
| GameSortPart2.VerifyCaseOutput | farewell/round_c/game_sort_part_2/output_validators/validator/custom_judge.cc:146-167 | the method returns the verdict the specification function gives |
| GameSortPart2.VerifyAccepts | farewell/round_c/game_sort_part_2/output_validators/validator/custom_judge.cc:146-167 | a POSSIBLE answer passes iff it cuts s into p words and no choice of arrangements of those words is sorted |
| GameSortPart2.JudgeCase | farewell/round_c/game_sort_part_2/output_validators/validator/custom_judge.cc:175-182 | the verdicts must agree, and a user answer the judge missed is a judge error |
| SortingPermutationUnit.ZeroBasedPermutationIff | codejam/2019/world_finals/sorting_permutation_unit/output_validators/validator/checker.cpp:256-262 | sorting a copy gives 0, 1, ..., n-1 iff every entry is an index and each index occurs once |
| SortingPermutationUnit.CheckZeroBased | codejam/2019/world_finals/sorting_permutation_unit/output_validators/validator/checker.cpp:256-262 | the sort-and-compare loop decides exactly the zero-based permutation test |
| SortingPermutationUnit.PermuteArray | codejam/2019/world_finals/sorting_permutation_unit/output_validators/validator/checker.cpp:354-359 | the loop fills entry i with the array's entry at the permutation's i, as the specification function does |
| SortingPermutationUnit.PermuteCompose | codejam/2019/world_finals/sorting_permutation_unit/output_validators/validator/checker.cpp:374-376 | permuting by p and then by q permutes by their composite, again an index map |
| SortingPermutationUnit.PermuteIdentity | codejam/2019/world_finals/sorting_permutation_unit/output_validators/validator/checker.cpp:354-359 | permuting by the identity changes nothing |
| SortingPermutationUnit.ApplyComposite | codejam/2019/world_finals/sorting_permutation_unit/output_validators/validator/checker.cpp:374-376 | applying the operations one by one permutes the array by their composite |
| SortingPermutationUnit.IsSorted | codejam/2019/world_finals/sorting_permutation_unit/output_validators/validator/checker.cpp:361-366 | the loop passes iff no entry exceeds its right neighbour |
| SortingPermutationUnit.AdjacentSortedIff | codejam/2019/world_finals/sorting_permutation_unit/output_validators/validator/checker.cpp:361-366 | comparing neighbours decides that the array is non-decreasing throughout |
| SortingPermutationUnit.JudgeSorts | codejam/2019/world_finals/sorting_permutation_unit/output_validators/validator/checker.cpp:369-383 | an answer is accepted iff for every array the composite of its operations sorts it, and is otherwise refused as not sorted |
| SortingPermutationUnit.ApplyOperations | codejam/2019/world_finals/sorting_permutation_unit/output_validators/validator/checker.cpp:374-376 | the loop, reassigning the array, applies the operations in order |
| SortingPermutationUnit.JudgeCase | codejam/2019/world_finals/sorting_permutation_unit/output_validators/validator/checker.cpp:369-383 | the method returns the verdict the specification function gives |
| SortingPermutationUnit.ParseIntsFails | codejam/2019/world_finals/sorting_permutation_unit/output_validators/validator/checker.cpp:320 | a line of integers fails to read iff one of its tokens does |
| SortingPermutationUnit.ParsePermutationSound | codejam/2019/world_finals/sorting_permutation_unit/output_validators/validator/checker.cpp:315-327 | a permutation line is accepted only as a bijection on 0 .. n-1 |
| SortingPermutationUnit.ParseOperationLineSound | codejam/2019/world_finals/sorting_permutation_unit/output_validators/validator/checker.cpp:331-350 | an operation line is accepted only with its count first, at most S operations, each naming one of the permutations |
| SortingPermutationUnit.PermutationCountIff | codejam/2019/world_finals/sorting_permutation_unit/output_validators/validator/checker.cpp:302-308 | the count line is accepted iff its token is an integer between 1 and P |
| SortingPermutationUnit.Int32 | codejam/2019/world_finals/sorting_permutation_unit/output_validators/validator/checker.cpp:302 | the 64-bit value kept in a 32-bit int is the value modulo 2^32 in [-2^31, 2^31), and unchanged when it fits |
| SortingPermutationUnit.NarrowedCountAccepted | codejam/2019/world_finals/sorting_permutation_unit/output_validators/validator/checker.cpp:302-308 | as written, "4294967297" passes the count checks as one permutation; the corrected reading refuses it as too many |
| SortingPermutationUnit.ParseCaseSound | codejam/2019/world_finals/sorting_permutation_unit/output_validators/validator/checker.cpp:286-352 | whatever the parser accepts is an answer within the limits: permutations that are bijections, operation lists within S naming existing permutations, one list per array |
| SortingPermutationUnit.ReadPermutation | codejam/2019/world_finals/sorting_permutation_unit/output_validators/validator/checker.cpp:316-326 | reading one permutation line decides as the specification function does |
| SortingPermutationUnit.ReadOperations | codejam/2019/world_finals/sorting_permutation_unit/output_validators/validator/checker.cpp:332-349 | reading one operation line decides as the specification function does |
| SortingPermutationUnit.ReadPermutations | codejam/2019/world_finals/sorting_permutation_unit/output_validators/validator/checker.cpp:315-327 | the loop over lines 2 to P + 1 reads the permutations as the specification function does |
| SortingPermutationUnit.ReadOperationLines | codejam/2019/world_finals/sorting_permutation_unit/output_validators/validator/checker.cpp:331-350 | the loop over the operation lines reads them as the specification function does |
| SortingPermutationUnit.ParseCaseOutput | codejam/2019/world_finals/sorting_permutation_unit/output_validators/validator/checker.cpp:286-352 | the method reads the answer as the specification function does, with its first error |
| SortingPermutationUnit.ParseFormatted | codejam/2019/world_finals/sorting_permutation_unit/output_validators/validator/checker.cpp:286-352 | an answer within the limits, printed as the problem asks, is read back exactly |
| FenceDesign.TruncateBounds | codejam/2021/round_3/fence_design/output_validators/validator/custom_judge.cc:87-90 | a quoted string is at most 50 characters, unchanged iff it fits, keeps its first 47 characters, and truncating twice truncates once |
| FenceDesign.RangeByLength | codejam/2021/round_3/fence_design/output_validators/validator/custom_judge.cc:115-118 | digits without leading zeros are within 10^18 iff there are at most 18 of them or they are 10^18 itself |
| FenceDesign.ParseIntChecks | codejam/2021/round_3/fence_design/output_validators/validator/custom_judge.cc:100-123 | on a token of the right characters, the stripped length checks pass iff its value lies in [-10^18, 10^18] |
| FenceDesign.ParseIntAsWritten | codejam/2021/round_3/fence_design/output_validators/validator/custom_judge.cc:100-123 | as written, a lone "-" is read as 0; every other token is read iff it is an integer in [-10^18, 10^18], as its value |
| FenceDesign.ParseInt | codejam/2021/round_3/fence_design/output_validators/validator/custom_judge.cc:100-123 | a token is read iff it is an optional minus and digits whose value lies in [-10^18, 10^18], as that value |
| FenceDesign.IntInRangeDecimal | codejam/2021/round_3/fence_design/output_validators/validator/custom_judge.cc:75-79 | every integer in range, printed, is read back as itself |
| FenceDesign.IntInRangeLeadingZeros | codejam/2021/round_3/fence_design/output_validators/validator/custom_judge.cc:125-137 | leading zeros in front of the digits do not change what is read |
| FenceDesign.Lowercase | codejam/2021/round_3/fence_design/output_validators/validator/custom_judge.cc:149-153 | the result has the same length, no capitals, each capital lowered by 32 and every other character kept |
| FenceDesign.LowercaseIdempotent | codejam/2021/round_3/fence_design/output_validators/validator/custom_judge.cc:149-153 | lowering twice lowers once |
| FenceDesign.Tokenize | codejam/2021/round_3/fence_design/output_validators/validator/custom_judge.cc:163-169 | the stream loop returns the line's whitespace-separated words, lowered |
| FenceDesign.WordsShape | codejam/2021/round_3/fence_design/output_validators/validator/custom_judge.cc:163-169 | every word is non-empty and holds no whitespace |
| FenceDesign.WordsJoin | codejam/2021/round_3/fence_design/output_validators/validator/custom_judge.cc:163-169 | non-empty words joined with spaces are read back as those words |
| FenceDesign.ErrorSticks | codejam/2021/round_3/fence_design/output_validators/validator/custom_judge.cc:190-211 | once a prefix of the lines fails, the whole split fails the same way |
| FenceDesign.SplitFirstLine | codejam/2021/round_3/fence_design/output_validators/validator/custom_judge.cc:206-207 | an output whose first line is not a case line is refused with the first-line message |
| FenceDesign.SplitCases | codejam/2021/round_3/fence_design/output_validators/validator/custom_judge.cc:190-211 | the loop splits the lines into cases as the specification function does, with its errors |
| FenceDesign.SplitUnsplit | codejam/2021/round_3/fence_design/output_validators/validator/custom_judge.cc:190-211 | cases written out with their case lines, numbered from 1, split back into the same cases |
| FenceDesign.JudgeAllCases | codejam/2021/round_3/fence_design/output_validators/validator/custom_judge.cc:295-308 | an error iff the case counts differ, with its message; "" iff every case passes; otherwise the first failing case's complaint, prefixed with its number |
| FenceDesign.InterProperties | codejam/2021/round_3/fence_design/output_validators/validator/custom_judge.cc:359-363 | fences that share a pole do not cross, and crossing does not depend on which fence is asked |
| FenceDesign.Order | codejam/2021/round_3/fence_design/output_validators/validator/custom_judge.cc:366-368 | the ordered fence is the fence or its reverse, with the lesser endpoint first |
| FenceDesign.OrderReverse | codejam/2021/round_3/fence_design/output_validators/validator/custom_judge.cc:366-368 | a fence and its reverse are one fence once ordered, and ordering twice orders once |
| FenceDesign.GetFences | codejam/2021/round_3/fence_design/output_validators/validator/custom_judge.cc:527-542 | the fences are the input's then the attempt's, ordered; the result is an error iff a pole is out of range or a fence repeats, with the out-of-range message first |

## Left out

- Reading input and output files, command-line handling, exit codes and the printing of verdicts are not modelled. Each judge model starts from the case data and the contestant's output lines.
- The Python judges' `_utils_Tokenize`, `ParseInputFile` and `ParseInput`: the models take the output as lines that are already split into whitespace-free tokens. Where the judge lower-cases them first (Coin Jam, Indicium), the tokens are lower-case already.
- RBTreeMap.RBTree.Insert: keys are integers ordered by Python's default `cmp`. The pluggable comparator the class accepts is not modelled, so neither is an exception a comparator raises partway through an insertion. The sweep-line order `CompareSegments` is modelled on its own in `RuralPlanning`.
- RBTreeMap.RBTree.RemoveNode: a node handle is a position in the current tree (a zipper), not an object. Node identity, aliasing between handles and the staleness of other handles after a removal are not modelled. The contract states the removal by key.
- RBTreeMap.RBTree.FindNode: keys are integers, so the `TypeError` Python raises when `hash()` or comparison fails on a key is not modelled. The same holds for every dictionary method.
- The tree's `__del__`, `Show`, `__str__`, `__repr__`, `__cmp__`, `__iter__` and `iteritems` are not modelled. They print, free memory or only wrap `Nodes`, whose contract is modelled.
- RuralPlanning.JudgeCase: the simple-polygon test `CheckSimplePolygon` (custom_judge.py lines 1299-1339) is not modelled. It is the sweep line that keeps the polygon's edges in an `RBTree` ordered by `CompareSegments`. The model takes that test's verdict as the parameter `simple`, so the acceptance it states holds relative to that verdict.
- RuralPlanning.CompareSegmentsSharedEndpoint: antisymmetry of the segment order is proved only for segments that share an endpoint. For segments whose x-ranges do not overlap it fails: (0,0)-(1,0) and (2,1)-(3,3) compare as 1 in both orders.
- RuralPlanning.ConvexHull: the contract states the chain structure, but not that every input point lies on or to the left of every hull edge. The structure is: left turns, ends at the least and greatest points, and every hull point is an input point.
- RuralPlanning.JudgeCase, RuralPlanning.Indices: the post indices are read with the documented `_utils_ToInteger` (`JudgeUtils.ToInteger`), which refuses "+05". The source's reader accepts it (see Findings).
- CoinJam.ParseDivisors, CoinJam.ParseAll: divisors are read with the documented `JudgeUtils.ToInteger`, which refuses a '+' followed by leading zeros ("+05"). The source accepts it (see Findings).
- EqualSums.ParseSubset: subset elements are read with the documented `JudgeUtils.ToInteger`, which refuses "+05". The source accepts it (see Findings).
- ProgramWithinAProgram.ParseLine, ProgramWithinAProgram.ParseAttempt: states, tape values and the instruction count are read with the documented `JudgeUtils.ToInteger`, which refuses "+05". The source accepts it (see Findings).
- ProgramWithinAProgram: the round trip of a whole printed output through `ParseAttempt` is stated only line by line (`ParseShowLine`, `ReadShowLines`, `ReadShownCount`), not for the whole output.
- SortingPermutationUnit.ParseCaseOutput: tokens are read with the corrected `FenceDesign.ParseInt` into unbounded integers. The source differs in two ways. It stores the 64-bit result in a 32-bit `int` for the permutation count, each permutation entry, the operation count and each operation (checker.cpp lines 302, 320, 333, 343). Its reader also takes "-" as 0. So inputs such as "4294967296" or "-" as the operation count are accepted by the source and refused here. Only the count's narrowing is modelled as written (`PermutationCountAsWritten`, see Findings).
- FenceDesign.SplitCases: case numbers are read with the corrected `FenceDesign.ParseInt`. So a header "Case #-:" is a parse error here, whereas the source reads it as case 0 and reports a case-number mismatch (see Findings).
- FenceDesign: the judge's `JudgeCase` for fences is not modelled, nor are its sweep-line search `FindIntersection` (a `std::set` ordered by a geometric comparator), `HasCollinears` and `ConvexHull`. The model covers the shared library, the segment test `inter`, the endpoint order `order` and `GetFences`.
- GameSortPart2.ReadCaseOutput: the reader library is not part of this model, so the text of its error for a line that does not hold p words is not modelled; the model returns WrongWordCount with the two counts.
- HackedExam.JudgeCase: Solve (custom_judge.cc:361-452), the contest solution the judge runs on the input, is not modelled. Its answer, with '?' where either answer scores the same, and its fraction are a parameter of the model, and the reference output that JudgeCase ignores is left out.
- ThreeDPrinting.CheckNumbers: the sum of the four amounts is an unbounded integer. The source adds them in a 32-bit `int`, which cannot overflow because each amount is at most 10^6.
- ThreeDPrinting: `GetNextNonEmptyLineTokens`, `Error` (which exits the process) and stream handling are not modelled.
- SavingTheJelly: the reading of the case's numbers into `long long` is not modelled. Coordinates and squared distances are unbounded integers, which agree with the source for the coordinates the problem allows.
- WarOfTheWords: the interactive `Judge` loop and the random ranking of the words are not modelled. Only the word numbering, the reading of one contestant line, the rank order and the robot's range are.
- Zillionim: `ReadValue` and `RunCase` (reading from the contestant's process and the random choice of plays) are not modelled.
- NamingCompromise.ComputeEditDistance: the table is filled one row at a time and only the row below is kept, rather than the source's whole table. The result is the same entry.
- JoinTheRanks.RequiredOps: the source computes the ceiling with floating point. The model uses exact integer division, which agrees for the sizes the problem allows.
- PascalWalk.BinomialTable: the table is a field filled on first use. The source's module-level global is modelled as that object, so sharing between judge runs is not modelled.


## Findings

| source | as written | input that shows it | evidently intended | confidence | as-written member | corrected member |
|---|---|---|---|---|---|---|
| codejam/2021/round_3/fence_design/output_validators/validator/custom_judge.cc:100-123 | a lone minus sign passes every check; reading "-" from the stream fails and leaves 0, which is returned | "-" is read as 0 | "-" is refused as not an integer, like every other token without digits | medium, not executed | FenceDesign.ParseIntAsWritten | FenceDesign.ParseInt |
| codejam/2021/round_1a/hacked_exam/output_validators/validator/custom_judge.cc:75-101 | the same reader for 128-bit values: a lone "-" comes through as 0 | "-" is read as 0 | "-" is refused | medium, not executed | HackedExam.ParseInt128AsWritten | HackedExam.ParseInt128 |
| codejam/2013/round_3/rural_planning/output_validators/validator/custom_judge.py:1095-1121 | leading zeros are refused only when the string itself starts with '0' (or with "-0"), so a '+' sign lets them through | "+05" is accepted as 5 | leading zeros are refused with either sign, as the reader's documentation says | low, not executed | JudgeUtils.ToIntegerAcceptsPlusLeadingZero | JudgeUtils.ToInteger |
| codejam/2020/round_1a/pattern_matching/output_validators/validator/custom_judge.cc:412-419 | the stripping loop takes the last character of the answer without checking that any is left | the answer "a" against the pattern "a*a" reads the last character of an empty string | the match fails as soon as the answer runs out | medium, not executed | PatternMatching.StripReadsBeforeStart | PatternMatching.StripEnd |
| codejam/2019/world_finals/sorting_permutation_unit/output_validators/validator/checker.cpp:302-308 | the 64-bit count is stored in a 32-bit int before the range checks | "4294967297" passes as one permutation | a count above P is refused however many digits it has | low, not executed | SortingPermutationUnit.NarrowedCountAccepted | SortingPermutationUnit.PermutationCountIff |
| codejam/2022/qualification_round/3d_printing/output_validators/validator/custom_judge.cpp:48-53 | the numbered escape masks its second and third digits with 3, not 7 | the characters 0 and 4 are both written "\000" | three octal digits, which tell any two characters apart | medium, not executed | ThreeDPrinting.EscapeCollides | ThreeDPrinting.OctalEscapeInjective |
| codejam/2022/qualification_round/3d_printing/output_validators/validator/custom_judge.cpp:33-58 | a backslash in the message is copied without an escape | the message made of a backslash and a quote is written as two backslashes and a quote, which read as one backslash and a quote that ends the text | a backslash written as two backslashes, so that the quoted text reads back as the message | medium, not executed | ThreeDPrinting.EscapedBackslashBreaks | ThreeDPrinting.FixedEscapedReadsBack |
