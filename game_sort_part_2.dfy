/**
 * The Game Sort: Part 2 judge (Code Jam Farewell Round C).  Alice cuts a
 * string of capital letters into p words; Bob then rearranges the letters
 * of each word and wins if he can make the list of words sorted.  The
 * judge plays Bob greedily: each word becomes the smallest rearrangement
 * that is not smaller than the word before it.
 */
module GameSortPart2 {
  import opened Wrappers
  import opened JudgeUtils

  // ---------------------------------------------------------------------
  // Letters and string order
  // ---------------------------------------------------------------------

  predicate IsLetter(ch: char)
  {
    'A' <= ch <= 'Z'
  }

  predicate Letters(s: string)
  {
    forall k | 0 <= k < |s| :: IsLetter(s[k])
  }

  function Letter(i: int): (ch: char)
    requires 0 <= i < 26
    ensures IsLetter(ch) && Index(ch) == i
  {
    (65 + i) as char
  }

  function Index(ch: char): int
  {
    ch as int - 65
  }

  /** x and y agree before position j, where x has the smaller character. */
  ghost predicate Below(x: string, y: string, j: int)
  {
    0 <= j < |x| && j < |y| && x[..j] == y[..j] && x[j] < y[j]
  }

  /** The standard library's `<=` on strings: x is a prefix of y, or smaller at the first difference. */
  ghost predicate LessEq(x: string, y: string)
  {
    (|x| <= |y| && y[..|x|] == x) || exists j :: Below(x, y, j)
  }

  /** String order is transitive. */
  lemma LessEqTrans(x: string, y: string, z: string)
    requires LessEq(x, y) && LessEq(y, z)
    ensures LessEq(x, z)
  {
    if |x| <= |y| && y[..|x|] == x {
      if |y| <= |z| && z[..|y|] == y {
        assert z[..|x|] == z[..|y|][..|x|];
      } else {
        var k :| Below(y, z, k);
        if k < |x| {
          assert x[..k] == y[..|x|][..k] == y[..k];
          assert Below(x, z, k);
        } else {
          assert z[..|x|] == z[..k][..|x|] == y[..k][..|x|] == x;
        }
      }
    } else {
      var j :| Below(x, y, j);
      if |y| <= |z| && z[..|y|] == y {
        assert z[..j] == z[..|y|][..j];
        assert Below(x, z, j);
      } else {
        var k :| Below(y, z, k);
        if j < k {
          assert z[..j] == z[..k][..j] == y[..k][..j] == y[..j];
          assert Below(x, z, j);
        } else if j == k {
          assert Below(x, z, j);
        } else {
          assert x[..k] == x[..j][..k] == y[..j][..k] == y[..k];
          assert Below(x, z, k);
        }
      }
    }
  }

  /** A common prefix keeps the order of the rests. */
  lemma LessEqPrepend(u: string, a: string, b: string)
    requires LessEq(a, b)
    ensures LessEq(u + a, u + b)
  {
    if |a| <= |b| && b[..|a|] == a {
      assert (u + b)[..|u + a|] == u + b[..|a|];
    } else {
      var j :| Below(a, b, j);
      assert (u + a)[..|u| + j] == u + a[..j];
      assert (u + b)[..|u| + j] == u + b[..j];
      assert Below(u + a, u + b, |u| + j);
    }
  }

  /** Characters in order. */
  predicate Sorted(s: string)
  {
    forall a, b | 0 <= a < b < |s| :: s[a] <= s[b]
  }

  lemma DropHead(s: string)
    requires |s| > 0
    ensures multiset(s[1..]) == multiset(s) - multiset{s[0]}
  {
    assert s == [s[0]] + s[1..];
  }

  lemma HeadLeast(t: string, ch: char)
    requires Sorted(t) && ch in multiset(t)
    ensures t[0] <= ch
  {
    var k :| 0 <= k < |t| && t[k] == ch;
  }

  /** A sorted string is the smallest arrangement of its characters. */
  lemma {:induction false} SortedLeast(t: string, x: string)
    requires Sorted(t) && multiset(t) == multiset(x)
    ensures LessEq(t, x)
    decreases |t|
  {
    if |t| > 0 {
      assert |x| == |multiset(x)| == |multiset(t)| == |t|;
      assert x[0] in multiset(x);
      HeadLeast(t, x[0]);
      if t[0] < x[0] {
        assert Below(t, x, 0);
      } else {
        DropHead(t);
        DropHead(x);
        SortedLeast(t[1..], x[1..]);
        LessEqPrepend([t[0]], t[1..], x[1..]);
        assert [t[0]] + t[1..] == t && [t[0]] + x[1..] == x;
      }
    }
  }

  // ---------------------------------------------------------------------
  // Letter counts
  // ---------------------------------------------------------------------

  /** freq counts the letters of m, as the source's 26-entry frequency table. */
  ghost predicate Counts(freq: seq<int>, m: multiset<char>)
  {
    |freq| == 26 && forall i | 0 <= i < 26 :: freq[i] == m[Letter(i)]
  }

  ghost predicate LetterBag(m: multiset<char>)
  {
    forall ch | ch in m :: IsLetter(ch)
  }

  lemma LettersBag(s: string)
    requires Letters(s)
    ensures LetterBag(multiset(s))
  {
    forall ch | ch in multiset(s)
      ensures IsLetter(ch)
    {
      var k :| 0 <= k < |s| && s[k] == ch;
    }
  }

  lemma LetterBagSub(a: multiset<char>, b: multiset<char>)
    requires LetterBag(a) && b <= a
    ensures LetterBag(b)
  {
  }

  lemma BagLetters(s: string)
    requires LetterBag(multiset(s))
    ensures Letters(s)
  {
    forall k | 0 <= k < |s|
      ensures IsLetter(s[k])
    {
      assert s[k] in multiset(s);
    }
  }

  function Repeat(ch: char, n: int): (r: string)
    ensures |r| == if n < 0 then 0 else n
  {
    seq(if n < 0 then 0 else n, _ => ch)
  }

  /** The letters of m with index below i, in alphabetical order. */
  function FillUpTo(m: multiset<char>, i: int): string
    requires 0 <= i <= 26
  {
    if i == 0 then [] else FillUpTo(m, i - 1) + Repeat(Letter(i - 1), m[Letter(i - 1)])
  }

  /** The letters of m in alphabetical order. */
  function Fill(m: multiset<char>): string
  {
    FillUpTo(m, 26)
  }

  lemma {:induction false} FillUpToSorted(m: multiset<char>, i: int)
    requires 0 <= i <= 26
    ensures Sorted(FillUpTo(m, i))
    ensures forall k | 0 <= k < |FillUpTo(m, i)| :: IsLetter(FillUpTo(m, i)[k]) && Index(FillUpTo(m, i)[k]) < i
  {
    if i > 0 {
      FillUpToSorted(m, i - 1);
      var x, y := FillUpTo(m, i - 1), Repeat(Letter(i - 1), m[Letter(i - 1)]);
      assert FillUpTo(m, i) == x + y;
      forall a, b | 0 <= a < b < |x + y|
        ensures (x + y)[a] <= (x + y)[b]
      {
        if b >= |x| && a < |x| {
          assert Index(x[a]) < i - 1;
        }
      }
    }
  }

  lemma {:induction false} FillUpToBag(m: multiset<char>, i: int)
    requires 0 <= i <= 26
    ensures forall ch :: multiset(FillUpTo(m, i))[ch] == if IsLetter(ch) && Index(ch) < i then m[ch] else 0
  {
    if i > 0 {
      FillUpToBag(m, i - 1);
      var c := Letter(i - 1);
      RepeatMultiset(c, m[c]);
      var before := multiset(FillUpTo(m, i - 1));
      assert multiset(FillUpTo(m, i)) == before + multiset{}[c := m[c]];
      forall ch
        ensures multiset(FillUpTo(m, i))[ch] == if IsLetter(ch) && Index(ch) < i then m[ch] else 0
      {
        if IsLetter(ch) && Index(ch) == i - 1 {
          assert ch == c;
        }
      }
    }
  }

  lemma {:induction false} RepeatMultiset(ch: char, n: nat)
    ensures multiset(Repeat(ch, n)) == multiset{}[ch := n]
  {
    if n > 0 {
      assert Repeat(ch, n) == Repeat(ch, n - 1) + [ch];
      RepeatMultiset(ch, n - 1);
    }
  }

  /** Fill spells exactly the letters of a bag of letters, sorted. */
  lemma FillFacts(m: multiset<char>)
    requires LetterBag(m)
    ensures Sorted(Fill(m)) && multiset(Fill(m)) == m && Letters(Fill(m))
  {
    FillUpToSorted(m, 26);
    FillUpToBag(m, 26);
    forall ch
      ensures multiset(Fill(m))[ch] == m[ch]
    {
      if !IsLetter(ch) {
        assert ch !in m;
      }
    }
  }

  // ---------------------------------------------------------------------
  // The smallest valid permutation, as a specification
  // ---------------------------------------------------------------------

  /** The letters of w can be taken from cur. */
  ghost predicate Avail(cur: string, w: string)
  {
    multiset(w) <= multiset(cur)
  }

  /** The letters of cur left after taking those of w. */
  ghost function Remaining(cur: string, w: string): multiset<char>
  {
    multiset(cur) - multiset(w)
  }

  /** The longest prefix of prev, from k on, whose letters can be taken from cur. */
  ghost function Greedy(prev: string, cur: string, k: nat): (g: nat)
    requires k <= |prev| && Avail(cur, prev[..k])
    ensures k <= g <= |prev| && Avail(cur, prev[..g])
    ensures g < |prev| ==> !Avail(cur, prev[..g + 1])
    decreases |prev| - k
  {
    if k < |prev| && Avail(cur, prev[..k + 1]) then Greedy(prev, cur, k + 1) else k
  }

  /** The smallest letter index from i on that m holds, if any. */
  ghost function FirstBigger(m: multiset<char>, i: int): (r: Option<int>)
    requires 0 <= i <= 26
    ensures r.Some? ==> i <= r.value < 26
    decreases 26 - i
  {
    if i == 26 then None else if m[Letter(i)] > 0 then Some(i) else FirstBigger(m, i + 1)
  }

  /** FirstBigger finds the first letter from i on that m holds, and none when there is none. */
  lemma {:induction false} FirstBiggerFacts(m: multiset<char>, i: int)
    requires 0 <= i <= 26
    ensures FirstBigger(m, i).Some? ==> m[Letter(FirstBigger(m, i).value)] > 0
    ensures FirstBigger(m, i).Some? ==> forall l | i <= l < FirstBigger(m, i).value :: m[Letter(l)] == 0
    ensures FirstBigger(m, i).None? ==> forall l | i <= l < 26 :: m[Letter(l)] == 0
    decreases 26 - i
  {
    if i < 26 && m[Letter(i)] == 0 {
      FirstBiggerFacts(m, i + 1);
    }
  }

  /** Level k can be raised: after prev[..k] some letter above prev[k] is left. */
  ghost function RaiseAt(prev: string, cur: string, k: int): Option<int>
    requires 0 <= k < |prev| && Letters(prev)
  {
    FirstBigger(Remaining(cur, prev[..k]), Index(prev[k]) + 1)
  }

  /** The deepest level at or below k that can be raised. */
  ghost function Raise(prev: string, cur: string, k: int): (r: Option<int>)
    requires 0 <= k < |prev| && Letters(prev)
    ensures r.Some? ==> 0 <= r.value <= k && RaiseAt(prev, cur, r.value).Some?
    decreases k
  {
    if RaiseAt(prev, cur, k).Some? then Some(k) else if k == 0 then None else Raise(prev, cur, k - 1)
  }

  /** Raise finds the deepest such level: none is missed between it and k. */
  lemma {:induction false} RaiseDeepest(prev: string, cur: string, k: int, j: int)
    requires Letters(prev) && 0 <= j <= k < |prev| && RaiseAt(prev, cur, j).Some?
    ensures Raise(prev, cur, k).Some? && j <= Raise(prev, cur, k).value
    decreases k
  {
    if RaiseAt(prev, cur, k).None? {
      RaiseDeepest(prev, cur, k - 1, j);
    }
  }

  /**
   * The fixed part of smallest_valid_permutation's answer, and the letters
   * of cur still to place after it: all of prev when its letters can be
   * taken from cur; otherwise prev cut at the deepest level that can be
   * raised, followed by the smallest larger letter left.  None when no
   * level can be raised.
   */
  ghost function Plan(prev: string, cur: string): Option<(string, multiset<char>)>
    requires Letters(prev)
  {
    var g := Greedy(prev, cur, 0);
    if g == |prev| then Some((prev, Remaining(cur, prev)))
    else match Raise(prev, cur, g)
      case None => None
      case Some(q) =>
        var i := RaiseAt(prev, cur, q).value;
        Some((prev[..q] + [Letter(i)], Remaining(cur, prev[..q]) - multiset{Letter(i)}))
  }

  /** What smallest_valid_permutation returns: the planned part, then the letters left in order; "" without a plan. */
  ghost function Smallest(prev: string, cur: string): string
    requires Letters(prev)
  {
    match Plan(prev, cur)
    case None => ""
    case Some((u, m)) => u + Fill(m)
  }

  /** A shorter prefix of w can be taken from cur when a longer one can. */
  lemma AvailPrefix(cur: string, w: string, k: int, n: int)
    requires 0 <= k <= n <= |w| && Avail(cur, w[..n])
    ensures Avail(cur, w[..k])
  {
    assert w[..n] == w[..k] + w[k..n];
  }

  /** One more letter can be taken exactly when cur still holds it. */
  lemma AvailStep(cur: string, w: string, k: int)
    requires 0 <= k < |w| && Avail(cur, w[..k])
    ensures Avail(cur, w[..k + 1]) <==> Remaining(cur, w[..k])[w[k]] > 0
    ensures Avail(cur, w[..k + 1]) ==> Remaining(cur, w[..k + 1]) == Remaining(cur, w[..k]) - multiset{w[k]}
    ensures Avail(cur, w[..k + 1]) ==> Remaining(cur, w[..k]) == Remaining(cur, w[..k + 1]) + multiset{w[k]}
  {
    assert w[..k + 1] == w[..k] + [w[k]];
  }

  lemma SoundFull(prev: string, cur: string)
    requires Letters(prev) && Letters(cur) && Avail(cur, prev)
    ensures var r := prev + Fill(Remaining(cur, prev));
      multiset(r) == multiset(cur) && LessEq(prev, r)
  {
    LettersBag(cur);
    FillFacts(Remaining(cur, prev));
    assert (prev + Fill(Remaining(cur, prev)))[..|prev|] == prev;
  }

  /** Taking one more available letter after u leaves the rest of cur. */
  lemma TakeOne(cur: string, u: string, ch: char)
    requires Avail(cur, u) && Remaining(cur, u)[ch] > 0
    ensures multiset(u + [ch]) + (Remaining(cur, u) - multiset{ch}) == multiset(cur)
  {
  }

  /** Raising level q of prev gives a string above prev. */
  lemma RaisedAbove(prev: string, q: int, ch: char, rest: string)
    requires 0 <= q < |prev| && prev[q] < ch
    ensures LessEq(prev, prev[..q] + [ch] + rest)
  {
    var r := prev[..q] + [ch] + rest;
    assert r[..q] == prev[..q] && r[q] == ch;
    assert Below(prev, r, q);
  }

  /** u, one more letter ch of cur, and the letters left in order spell an arrangement of cur. */
  lemma RaisedBag(cur: string, u: string, ch: char)
    requires Letters(cur) && Avail(cur, u) && Remaining(cur, u)[ch] > 0
    ensures multiset(u + [ch] + Fill(Remaining(cur, u) - multiset{ch})) == multiset(cur)
  {
    var m := Remaining(cur, u) - multiset{ch};
    LettersBag(cur);
    LetterBagSub(multiset(cur), m);
    TakeOne(cur, u, ch);
    FillFacts(m);
    assert multiset(u + [ch] + Fill(m)) == multiset(u + [ch]) + multiset(Fill(m));
  }

  lemma SoundRaised(prev: string, cur: string, q: int, i: int)
    requires Letters(prev) && Letters(cur) && 0 <= q < |prev| && 0 <= i < 26
    requires Avail(cur, prev[..q]) && RaiseAt(prev, cur, q) == Some(i)
    ensures var r := prev[..q] + [Letter(i)] + Fill(Remaining(cur, prev[..q]) - multiset{Letter(i)});
      multiset(r) == multiset(cur) && LessEq(prev, r)
  {
    FirstBiggerFacts(Remaining(cur, prev[..q]), Index(prev[q]) + 1);
    RaisedBag(cur, prev[..q], Letter(i));
    assert Letter(Index(prev[q])) == prev[q];
    RaisedAbove(prev, q, Letter(i), Fill(Remaining(cur, prev[..q]) - multiset{Letter(i)}));
  }

  /** A non-empty answer is an arrangement of cur that is not below prev. */
  lemma SmallestSound(prev: string, cur: string)
    requires Letters(prev) && Letters(cur)
    ensures var r := Smallest(prev, cur);
      r != "" ==> multiset(r) == multiset(cur) && LessEq(prev, r) && Letters(r)
  {
    var g := Greedy(prev, cur, 0);
    if g == |prev| {
      assert prev[..g] == prev;
      SoundFull(prev, cur);
    } else if Raise(prev, cur, g).Some? {
      var q := Raise(prev, cur, g).value;
      var i := RaiseAt(prev, cur, q).value;
      AvailPrefix(cur, prev, q, g);
      SoundRaised(prev, cur, q, i);
    }
    var r := Smallest(prev, cur);
    if r != "" {
      LettersBag(cur);
      BagLetters(r);
    }
  }

  /** A prefix of an arrangement of cur can be taken from cur. */
  lemma ArrangementPrefix(cur: string, x: string, k: int)
    requires multiset(x) == multiset(cur) && 0 <= k <= |x|
    ensures Avail(cur, x[..k])
  {
    assert x == x[..k] + x[k..];
  }

  lemma LeastFull(prev: string, cur: string, x: string)
    requires Letters(prev) && Letters(cur) && Avail(cur, prev)
    requires multiset(x) == multiset(cur) && LessEq(prev, x)
    ensures LessEq(prev + Fill(Remaining(cur, prev)), x)
  {
    LettersBag(cur);
    var m := Remaining(cur, prev);
    FillFacts(m);
    var r := prev + Fill(m);
    if |prev| <= |x| && x[..|prev|] == prev {
      var y := x[|prev|..];
      assert x == prev + y;
      SortedLeast(Fill(m), y);
      LessEqPrepend(prev, Fill(m), y);
    } else {
      var j :| Below(prev, x, j);
      assert r[..j] == prev[..j] && r[j] == prev[j];
      assert Below(r, x, j);
    }
  }

  lemma LeastRaised(prev: string, cur: string, x: string, j: int, q: int, i: int)
    requires Letters(prev) && Letters(cur) && 0 <= i < 26
    requires multiset(x) == multiset(cur) && Below(prev, x, j) && j <= q < |prev|
    requires Avail(cur, prev[..q]) && RaiseAt(prev, cur, q) == Some(i)
    requires q == j ==> i <= Index(x[j])
    ensures LessEq(prev[..q] + [Letter(i)] + Fill(Remaining(cur, prev[..q]) - multiset{Letter(i)}), x)
  {
    var m := Remaining(cur, prev[..q]) - multiset{Letter(i)};
    var rest := Fill(m);
    var r := prev[..q] + [Letter(i)] + rest;
    if q > j {
      assert r[..j] == prev[..j] && r[j] == prev[j];
      assert Below(r, x, j);
    } else if i < Index(x[j]) {
      assert r[..j] == x[..j] && r[j] == Letter(i);
      assert Below(r, x, j);
    } else {
      assert x[j] == Letter(i);
      var y := x[j + 1..];
      var u := x[..j + 1];
      assert u == prev[..q] + [Letter(i)];
      assert x == u + y;
      assert multiset(y) == m by {
        assert multiset(x) == multiset(u) + multiset(y);
        assert multiset(u) == multiset(prev[..q]) + multiset{Letter(i)};
      }
      LettersBag(cur);
      FillFacts(m);
      SortedLeast(rest, y);
      LessEqPrepend(u, rest, y);
    }
  }

  /** A level after whose prefix a larger letter ch is left can be raised, to ch or lower. */
  lemma RaiseTo(prev: string, cur: string, j: int, ch: char)
    requires Letters(prev) && 0 <= j < |prev| && IsLetter(ch) && prev[j] < ch
    requires Avail(cur, prev[..j] + [ch])
    ensures RaiseAt(prev, cur, j).Some? && RaiseAt(prev, cur, j).value <= Index(ch)
  {
    assert multiset(prev[..j] + [ch]) == multiset(prev[..j]) + multiset{ch};
    assert Remaining(cur, prev[..j])[ch] > 0;
    FirstBiggerFacts(Remaining(cur, prev[..j]), Index(prev[j]) + 1);
    assert Letter(Index(ch)) == ch;
  }

  /** An arrangement of cur agrees with prev on no prefix longer than the greedy match. */
  lemma GreedyBlocks(prev: string, cur: string, x: string, k: int)
    requires multiset(x) == multiset(cur) && Greedy(prev, cur, 0) < k <= |prev| && k <= |x|
    ensures x[..k] != prev[..k]
  {
    var g := Greedy(prev, cur, 0);
    if x[..k] == prev[..k] {
      SamePrefix(x, prev, k, g + 1);
      ArrangementPrefix(cur, x, g + 1);
    }
  }

  /** Two strings that agree on their first k characters agree on their first n <= k. */
  lemma SamePrefix(x: string, y: string, k: int, n: int)
    requires 0 <= n <= k <= |x| && k <= |y| && x[..k] == y[..k]
    ensures x[..n] == y[..n]
  {
    assert x[..n] == x[..k][..n];
    assert y[..n] == y[..k][..n];
  }

  /** Where an arrangement x of cur that is above prev first leaves prev: at or before the greedy match ends. */
  lemma LeaveLevel(prev: string, cur: string, x: string) returns (j: int)
    requires multiset(x) == multiset(cur) && LessEq(prev, x)
    requires Greedy(prev, cur, 0) < |prev|
    ensures 0 <= j <= Greedy(prev, cur, 0) && Below(prev, x, j)
    ensures Avail(cur, prev[..j] + [x[j]])
  {
    if |prev| <= |x| && x[..|prev|] == prev {
      GreedyBlocks(prev, cur, x, |prev|);
      assert false;
    }
    j :| Below(prev, x, j);
    if j > Greedy(prev, cur, 0) {
      GreedyBlocks(prev, cur, x, j);
      assert false;
    }
    AvailSnoc(cur, x, j, prev[..j]);
  }

  /** A prefix of an arrangement of cur, with the letter after it, can be taken from cur. */
  lemma AvailSnoc(cur: string, x: string, j: int, u: string)
    requires multiset(x) == multiset(cur) && 0 <= j < |x| && x[..j] == u
    ensures Avail(cur, u + [x[j]])
  {
    assert x[..j + 1] == u + [x[j]];
    ArrangementPrefix(cur, x, j + 1);
  }

  /**
   * The answer is the smallest arrangement of cur not below prev: for
   * every such arrangement x it is non-empty and not above x.
   */
  lemma SmallestLeast(prev: string, cur: string, x: string)
    requires Letters(prev) && Letters(cur) && |cur| >= 1
    requires multiset(x) == multiset(cur) && LessEq(prev, x)
    ensures Smallest(prev, cur) != "" && LessEq(Smallest(prev, cur), x)
  {
    var g := Greedy(prev, cur, 0);
    if g == |prev| {
      assert prev[..g] == prev;
      SoundFull(prev, cur);
      assert |cur| == |multiset(cur)|;
      LeastFull(prev, cur, x);
    } else {
      var j := LeaveLevel(prev, cur, x);
      assert Letters(x) by {
        LettersBag(cur);
        BagLetters(x);
      }
      RaiseTo(prev, cur, j, x[j]);
      RaiseDeepest(prev, cur, g, j);
      var q := Raise(prev, cur, g).value;
      var i := RaiseAt(prev, cur, q).value;
      AvailPrefix(cur, prev, q, g);
      LeastRaised(prev, cur, x, j, q, i);
    }
  }

  // ---------------------------------------------------------------------
  // smallest_valid_permutation
  // ---------------------------------------------------------------------

  lemma CountsAdd(freq: seq<int>, m: multiset<char>, c: int)
    requires Counts(freq, m) && 0 <= c < 26
    ensures Counts(freq[c := freq[c] + 1], m + multiset{Letter(c)})
  {
  }

  lemma CountsRemove(freq: seq<int>, m: multiset<char>, c: int)
    requires Counts(freq, m) && 0 <= c < 26 && m[Letter(c)] > 0
    ensures Counts(freq[c := freq[c] - 1], m - multiset{Letter(c)})
  {
  }

  /** The counting loop. */
  method CountLetters(cur: string) returns (freq: seq<int>)
    requires Letters(cur)
    ensures Counts(freq, multiset(cur))
  {
    freq := seq(26, _ => 0);
    for k := 0 to |cur|
      invariant Counts(freq, multiset(cur[..k]))
    {
      assert cur[..k + 1] == cur[..k] + [cur[k]];
      var c := Index(cur[k]);
      assert Letter(c) == cur[k];
      CountsAdd(freq, multiset(cur[..k]), c);
      freq := freq[c := freq[c] + 1];
    }
    assert cur[..|cur|] == cur;
  }

  /** The loop that matches the longest prefix of prev. */
  method MatchPrefix(prev: string, cur: string, freq0: seq<int>) returns (pos: int, freq: seq<int>)
    requires Letters(prev) && Counts(freq0, multiset(cur))
    ensures pos == Greedy(prev, cur, 0) && Counts(freq, Remaining(cur, prev[..pos]))
  {
    pos, freq := 0, freq0;
    assert prev[..0] == [];
    while pos < |prev| && freq[Index(prev[pos])] > 0
      invariant 0 <= pos <= |prev| && Avail(cur, prev[..pos])
      invariant Greedy(prev, cur, pos) == Greedy(prev, cur, 0)
      invariant Counts(freq, Remaining(cur, prev[..pos]))
    {
      var c := Index(prev[pos]);
      assert Letter(c) == prev[pos];
      AvailStep(cur, prev, pos);
      CountsRemove(freq, Remaining(cur, prev[..pos]), c);
      freq := freq[c := freq[c] - 1];
      pos := pos + 1;
    }
    if pos < |prev| {
      assert Letter(Index(prev[pos])) == prev[pos];
      AvailStep(cur, prev, pos);
    }
  }

  /** The inner for loop: the first letter index from start on with a positive count. */
  method FindBigger(freq: seq<int>, start: int, ghost m: multiset<char>) returns (r: Option<int>)
    requires 0 <= start <= 26 && Counts(freq, m)
    ensures r == FirstBigger(m, start)
  {
    for i := start to 26
      invariant FirstBigger(m, start) == FirstBigger(m, i)
    {
      if freq[i] > 0 {
        return Some(i);
      }
    }
    return None;
  }

  lemma PlanRaised(prev: string, cur: string, q: int)
    requires Letters(prev) && Greedy(prev, cur, 0) < |prev|
    requires Raise(prev, cur, Greedy(prev, cur, 0)) == Some(q)
    ensures Plan(prev, cur) == Some((prev[..q] + [Letter(RaiseAt(prev, cur, q).value)],
      Remaining(cur, prev[..q]) - multiset{Letter(RaiseAt(prev, cur, q).value)}))
  {
  }

  /** The letters left at level k are those left at level k + 1 and prev[k]. */
  lemma ReturnedLetter(cur: string, prev: string, k: int, g: int)
    requires 0 <= k < g <= |prev| && Avail(cur, prev[..g])
    ensures Remaining(cur, prev[..k]) == Remaining(cur, prev[..k + 1]) + multiset{prev[k]}
  {
    AvailPrefix(cur, prev, k, g);
    AvailPrefix(cur, prev, k + 1, g);
    AvailStep(cur, prev, k);
  }

  /** Searching down from k, the first level that can be raised is the one Raise finds. */
  lemma {:induction false} RaiseFirst(prev: string, cur: string, k: int, j: int)
    requires Letters(prev) && -1 <= j <= k && 0 <= k < |prev|
    requires forall l | j < l <= k :: RaiseAt(prev, cur, l).None?
    requires j >= 0 ==> RaiseAt(prev, cur, j).Some?
    ensures Raise(prev, cur, k) == if j >= 0 then Some(j) else None
    decreases k
  {
    if k > j {
      assert RaiseAt(prev, cur, k).None?;
      if k > 0 {
        RaiseFirst(prev, cur, k - 1, j);
      }
    }
  }

  /** A level that cannot be raised joins the levels above it that cannot. */
  lemma NoRaiseBelow(prev: string, cur: string, g: int, pos: int)
    requires Letters(prev) && 0 <= pos <= g < |prev| && RaiseAt(prev, cur, pos).None?
    requires forall l | pos < l <= g :: RaiseAt(prev, cur, l).None?
    ensures forall l | pos - 1 < l <= g :: RaiseAt(prev, cur, l).None?
  {
  }

  /** Stepping back from level k + 1 to level k returns prev[k] to the counts. */
  lemma GiveBack(prev: string, cur: string, g: int, k: int, freq: seq<int>)
    requires Letters(prev) && 0 <= k < g <= |prev| && Avail(cur, prev[..g])
    requires Counts(freq, Remaining(cur, prev[..k + 1]))
    ensures Counts(freq[Index(prev[k]) := freq[Index(prev[k])] + 1], Remaining(cur, prev[..k]))
  {
    ReturnedLetter(cur, prev, k, g);
    var c := Index(prev[k]);
    assert Letter(c) == prev[k];
    CountsAdd(freq, Remaining(cur, prev[..k + 1]), c);
  }

  /** One pass of the backtracking loop: raise level pos to the smallest larger letter left, if any. */
  method TryLevel(prev: string, cur: string, pos: int, freq0: seq<int>) returns (found: bool, ans: string, freq: seq<int>)
    requires Letters(prev) && 0 <= pos < |prev| && Counts(freq0, Remaining(cur, prev[..pos]))
    ensures found == RaiseAt(prev, cur, pos).Some?
    ensures found ==> ans == prev[..pos] + [Letter(RaiseAt(prev, cur, pos).value)]
    ensures found ==> Counts(freq, Remaining(cur, prev[..pos]) - multiset{Letter(RaiseAt(prev, cur, pos).value)})
  {
    ghost var left := Remaining(cur, prev[..pos]);
    assert Letter(Index(prev[pos])) == prev[pos];
    var r := FindBigger(freq0, Index(prev[pos]) + 1, left);
    found, ans, freq := r.Some?, "", freq0;
    if found {
      var i := r.value;
      FirstBiggerFacts(left, Index(prev[pos]) + 1);
      CountsRemove(freq0, left, i);
      freq := freq0[i := freq0[i] - 1];
      ans := prev[..pos] + [Letter(i)];
    }
  }

  /** A level that cannot be raised is left: one level down, with its letter given back. */
  method StepBack(prev: string, cur: string, g: int, pos0: int, freq0: seq<int>) returns (pos: int, freq: seq<int>)
    requires Letters(prev) && 0 <= pos0 <= g < |prev| && Avail(cur, prev[..g])
    requires Counts(freq0, Remaining(cur, prev[..pos0]))
    ensures pos == pos0 - 1
    ensures pos >= 0 ==> Counts(freq, Remaining(cur, prev[..pos]))
  {
    pos, freq := pos0 - 1, freq0;
    if pos >= 0 {
      GiveBack(prev, cur, g, pos, freq);
      var c := Index(prev[pos]);
      freq := freq[c := freq[c] + 1];
    }
  }

  /** The backtracking loop, from level g downwards: the deepest level that can be raised, raised. */
  method Backtrack(prev: string, cur: string, g: int, freq0: seq<int>)
      returns (ok: bool, ans: string, freq: seq<int>, ghost q: int)
    requires Letters(prev) && 0 <= g < |prev| && Avail(cur, prev[..g])
    requires Counts(freq0, Remaining(cur, prev[..g]))
    ensures ok <==> Raise(prev, cur, g).Some?
    ensures ok ==> Raise(prev, cur, g) == Some(q) && 0 <= q < |prev| && RaiseAt(prev, cur, q).Some?
    ensures ok ==> ans == prev[..q] + [Letter(RaiseAt(prev, cur, q).value)]
    ensures ok ==> Counts(freq, Remaining(cur, prev[..q]) - multiset{Letter(RaiseAt(prev, cur, q).value)})
  {
    var pos := g;
    ok, ans, freq, q := false, "", freq0, 0;
    while pos >= 0
      invariant -1 <= pos <= g
      invariant pos >= 0 ==> Counts(freq, Remaining(cur, prev[..pos]))
      invariant forall l | pos < l <= g :: RaiseAt(prev, cur, l).None?
    {
      var found, raised, f := TryLevel(prev, cur, pos, freq);
      if found {
        RaiseFirst(prev, cur, g, pos);
        ok, ans, freq, q := true, raised, f, pos;
        return;
      }
      NoRaiseBelow(prev, cur, g, pos);
      pos, freq := StepBack(prev, cur, g, pos, freq);
    }
    RaiseFirst(prev, cur, g, -1);
  }

  /** The final loops: append the remaining letters in alphabetical order. */
  method FillLetters(ans0: string, freq: seq<int>, ghost m: multiset<char>) returns (ans: string)
    requires Counts(freq, m)
    ensures ans == ans0 + Fill(m)
  {
    ans := ans0;
    for i := 0 to 26
      invariant ans == ans0 + FillUpTo(m, i)
    {
      var k := 0;
      while k < freq[i]
        invariant 0 <= k <= freq[i] || (freq[i] < 0 && k == 0)
        invariant ans == ans0 + FillUpTo(m, i) + Repeat(Letter(i), k)
      {
        assert Repeat(Letter(i), k + 1) == Repeat(Letter(i), k) + [Letter(i)];
        ans := ans + [Letter(i)];
        k := k + 1;
      }
      assert Repeat(Letter(i), k) == Repeat(Letter(i), m[Letter(i)]);
    }
  }

  /** The source's smallest_valid_permutation. */
  method SmallestValidPermutation(prev: string, cur: string) returns (ans: string)
    requires Letters(prev) && Letters(cur)
    ensures ans == Smallest(prev, cur)
  {
    var freq := CountLetters(cur);
    var pos;
    pos, freq := MatchPrefix(prev, cur, freq);
    ans := prev[..pos];
    var ok := true;
    ghost var m := Remaining(cur, prev[..pos]);
    if pos < |prev| {
      ghost var q;
      ok, ans, freq, q := Backtrack(prev, cur, pos, freq);
      if ok {
        PlanRaised(prev, cur, q);
        m := Remaining(cur, prev[..q]) - multiset{Letter(RaiseAt(prev, cur, q).value)};
      }
    } else {
      assert prev[..pos] == prev;
    }
    if ok {
      ans := FillLetters(ans, freq, m);
    } else {
      ans := "";
    }
  }

  // ---------------------------------------------------------------------
  // Bob's play
  // ---------------------------------------------------------------------

  predicate AllLetters(words: seq<string>)
  {
    forall k | 0 <= k < |words| :: Letters(words[k])
  }

  /** Bob's greedy play from prev on: each word becomes its smallest arrangement not below the one before. */
  ghost function BobFrom(prev: string, words: seq<string>): Option<seq<string>>
    requires Letters(prev) && AllLetters(words)
    decreases |words|
  {
    if words == [] then Some([])
    else
      var r := Smallest(prev, words[0]);
      SmallestSound(prev, words[0]);
      if r == "" then None
      else match BobFrom(r, words[1..])
        case None => None
        case Some(rest) => Some([r] + rest)
  }

  /** What playAsBob returns: Bob's arrangement, or nothing when he fails. */
  ghost function Bob(words: seq<string>): seq<string>
    requires AllLetters(words)
  {
    match BobFrom("", words)
    case None => []
    case Some(a) => a
  }

  function Then(done: seq<string>, rest: Option<seq<string>>): Option<seq<string>>
  {
    match rest
    case None => None
    case Some(a) => Some(done + a)
  }

  /** Bob's play unfolded once. */
  lemma BobFromUnfold(prev: string, words: seq<string>)
    requires Letters(prev) && AllLetters(words) && words != []
    ensures Letters(Smallest(prev, words[0]))
    ensures BobFrom(prev, words) ==
      if Smallest(prev, words[0]) == "" then None
      else Then([Smallest(prev, words[0])], BobFrom(Smallest(prev, words[0]), words[1..]))
  {
    SmallestSound(prev, words[0]);
  }

  /** One step of Bob's play, after the words done so far. */
  lemma BobFromStep(prev: string, words: seq<string>, i: int, done: seq<string>)
    requires Letters(prev) && AllLetters(words) && 0 <= i < |words|
    ensures Letters(Smallest(prev, words[i]))
    ensures Then(done, BobFrom(prev, words[i..])) ==
      if Smallest(prev, words[i]) == "" then None
      else Then(done + [Smallest(prev, words[i])], BobFrom(Smallest(prev, words[i]), words[i + 1..]))
  {
    assert words[i..][0] == words[i] && words[i..][1..] == words[i + 1..];
    BobFromUnfold(prev, words[i..]);
    var r := Smallest(prev, words[i]);
    if r != "" {
      var rest := BobFrom(r, words[i + 1..]);
      if rest.Some? {
        assert done + ([r] + rest.value) == done + [r] + rest.value;
      }
    }
  }

  /** The source's playAsBob. */
  method PlayAsBob(words: seq<string>) returns (ans: seq<string>)
    requires AllLetters(words)
    ensures ans == Bob(words)
  {
    var prev := "";
    ans := [];
    assert words[0..] == words;
    if BobFrom("", words).Some? {
      assert [] + BobFrom("", words).value == BobFrom("", words).value;
    }
    for i := 0 to |words|
      invariant Letters(prev)
      invariant BobFrom("", words) == Then(ans, BobFrom(prev, words[i..]))
    {
      BobFromStep(prev, words, i, ans);
      prev := SmallestValidPermutation(prev, words[i]);
      if prev == "" {
        return [];
      }
      ans := ans + [prev];
    }
    assert words[|words|..] == [];
  }

  /** Each word of xs is an arrangement of the matching word, and xs is sorted. */
  ghost predicate SortedArrangement(words: seq<string>, xs: seq<string>)
  {
    |xs| == |words| &&
    (forall k | 0 <= k < |xs| :: multiset(xs[k]) == multiset(words[k])) &&
    (forall k | 0 < k < |xs| :: LessEq(xs[k - 1], xs[k]))
  }

  lemma {:induction false} BobFromSound(prev: string, words: seq<string>)
    requires Letters(prev) && AllLetters(words) && BobFrom(prev, words).Some?
    ensures SortedArrangement(words, BobFrom(prev, words).value)
    ensures |words| > 0 ==> LessEq(prev, BobFrom(prev, words).value[0])
    decreases |words|
  {
    if words != [] {
      var r := Smallest(prev, words[0]);
      SmallestSound(prev, words[0]);
      BobFromSound(r, words[1..]);
    }
  }

  lemma {:induction false} BobFromComplete(prev: string, words: seq<string>, xs: seq<string>)
    requires Letters(prev) && AllLetters(words) && forall k | 0 <= k < |words| :: |words[k]| >= 1
    requires SortedArrangement(words, xs) && (|words| > 0 ==> LessEq(prev, xs[0]))
    ensures BobFrom(prev, words).Some?
    decreases |words|
  {
    if words != [] {
      BobFromUnfold(prev, words);
      SmallestLeast(prev, words[0], xs[0]);
      var r := Smallest(prev, words[0]);
      if |words| > 1 {
        LessEqTrans(r, xs[0], xs[1]);
      }
      BobFromComplete(r, words[1..], xs[1..]);
    }
  }

  /**
   * Bob's greedy play fails exactly when no choice of arrangements of
   * the words is sorted; when it succeeds it is such a choice.
   */
  lemma BobWinsIff(words: seq<string>)
    requires AllLetters(words) && |words| >= 1 && forall k | 0 <= k < |words| :: |words[k]| >= 1
    ensures Bob(words) != [] <==> exists xs :: SortedArrangement(words, xs)
    ensures Bob(words) != [] ==> SortedArrangement(words, Bob(words))
  {
    if BobFrom("", words).Some? {
      BobFromSound("", words);
    }
    if exists xs :: SortedArrangement(words, xs) {
      var xs :| SortedArrangement(words, xs);
      assert xs[0][..0] == "";
      BobFromComplete("", words, xs);
      BobFromSound("", words);
    }
  }

  // ---------------------------------------------------------------------
  // Judging
  // ---------------------------------------------------------------------

  /** A case output: a verdict, and the words when it says POSSIBLE. */
  datatype Output = Output(possible: bool, words: seq<string>)

  datatype Verdict = Correct | WrongAnswer(message: string) | JudgeError(message: string)

  /**
   * Why an answer cannot be read: the line after POSSIBLE does not hold
   * exactly p words (the reader's list of p tokens fails), or the verdict
   * is neither POSSIBLE nor IMPOSSIBLE.
   */
  datatype ReadError = WrongWordCount(words: nat, expected: int) | UnrecognizedVerdict(message: string)

  /**
   * The source's ReadCaseOutput. The verdict token arrives lower-cased by the
   * reader; a POSSIBLE answer's words are the p tokens of the next line,
   * case preserved, and a line with another number of tokens is a reader
   * error.
   */
  function ReadCaseOutput(p: int, verdict: string, nextLine: seq<string>): (r: Result<Output, ReadError>)
    ensures r.Ok? <==> verdict == "impossible" || (verdict == "possible" && |nextLine| == p)
    ensures r.Ok? ==> r.value.possible == (verdict == "possible")
    ensures r.Ok? && r.value.possible ==> r.value.words == nextLine && |r.value.words| == p
    ensures r.Ok? && !r.value.possible ==> r.value.words == []
    ensures r == Err(WrongWordCount(|nextLine|, p)) <==> verdict == "possible" && |nextLine| != p
    ensures r.Err? && r.error.UnrecognizedVerdict? <==> verdict != "possible" && verdict != "impossible"
    ensures r.Err? && r.error.UnrecognizedVerdict? ==> r.error.message == "Unrecognized verdict '" + verdict + "'."
  {
    if verdict == "possible" then
      if |nextLine| == p then Ok(Output(true, nextLine)) else Err(WrongWordCount(|nextLine|, p))
    else if verdict == "impossible" then Ok(Output(false, []))
    else Err(UnrecognizedVerdict("Unrecognized verdict '" + verdict + "'."))
  }

  /**
   * Reading and verifying a POSSIBLE answer together: it passes exactly when
   * the next line holds p words that cut s and that no choice of
   * arrangements makes sorted.
   */
  lemma ReadThenVerify(p: int, s: string, nextLine: seq<string>)
    requires Letters(s) && p >= 1 && forall k | 0 <= k < |nextLine| :: |nextLine[k]| >= 1
    ensures var r := ReadCaseOutput(p, "possible", nextLine);
      r.Ok? && Verify(p, s, r.value).None? <==>
        |nextLine| == p && Concat(nextLine) == s && !exists xs :: SortedArrangement(nextLine, xs)
  {
    var r := ReadCaseOutput(p, "possible", nextLine);
    if r.Ok? {
      VerifyAccepts(p, s, r.value);
    }
  }

  function Concat(words: seq<string>): string
  {
    if words == [] then "" else Concat(words[..|words| - 1]) + words[|words| - 1]
  }

  lemma {:induction false} ConcatLetters(words: seq<string>)
    requires Letters(Concat(words))
    ensures AllLetters(words)
  {
    if words != [] {
      var n := |words|;
      var x, y := Concat(words[..n - 1]), words[n - 1];
      assert Concat(words) == x + y;
      assert forall k | 0 <= k < |x| :: x[k] == (x + y)[k];
      assert forall k | 0 <= k < |y| :: y[k] == (x + y)[|x| + k];
      ConcatLetters(words[..n - 1]);
      forall k | 0 <= k < n
        ensures Letters(words[k])
      {
        if k < n - 1 {
          assert words[k] == words[..n - 1][k];
        }
      }
    }
  }

  /** What VerifyCaseOutput decides about a POSSIBLE answer for p words of s. */
  ghost function Verify(p: int, s: string, output: Output): Option<string>
    requires Letters(s)
  {
    if !output.possible then None
    else if p != |output.words| then
      Some("Answer contains " + Decimal(|output.words|) + " words, expected " + Decimal(p) + ".")
    else if s != Concat(output.words) then Some("Answer is not a valid separation of the input string.")
    else
      ConcatLetters(output.words);
      if Bob(output.words) != [] then Some("Answer does not guarantee Alice will win.") else None
  }

  /** The source's VerifyCaseOutput. */
  method VerifyCaseOutput(p: int, s: string, output: Output) returns (r: Option<string>)
    requires Letters(s)
    ensures r == Verify(p, s, output)
  {
    if output.possible {
      if p != |output.words| {
        return Some("Answer contains " + Decimal(|output.words|) + " words, expected " + Decimal(p) + ".");
      }
      var sOut := "";
      for i := 0 to |output.words|
        invariant sOut == Concat(output.words[..i])
      {
        assert output.words[..i + 1][..i] == output.words[..i];
        sOut := sOut + output.words[i];
      }
      assert output.words[..|output.words|] == output.words;
      if s != sOut {
        return Some("Answer is not a valid separation of the input string.");
      }
      ConcatLetters(output.words);
      var bob := PlayAsBob(output.words);
      if bob != [] {
        return Some("Answer does not guarantee Alice will win.");
      }
    }
    return None;
  }

  /**
   * A POSSIBLE answer passes exactly when it cuts s into p words and no
   * choice of arrangements of those words is sorted.
   */
  lemma VerifyAccepts(p: int, s: string, output: Output)
    requires Letters(s) && output.possible && p >= 1
    requires forall k | 0 <= k < |output.words| :: |output.words[k]| >= 1
    ensures Verify(p, s, output).None? <==>
      |output.words| == p && Concat(output.words) == s &&
      !exists xs :: SortedArrangement(output.words, xs)
  {
    if |output.words| == p && Concat(output.words) == s {
      ConcatLetters(output.words);
      BobWinsIff(output.words);
    }
  }

  /** The source's JudgeCase: the verdicts must agree, and a user answer the judge missed is a judge error. */
  function JudgeCase(judgeOutput: Output, userOutput: Output): (v: Verdict)
    ensures v == Correct <==> judgeOutput.possible == userOutput.possible
    ensures v.JudgeError? <==> !judgeOutput.possible && userOutput.possible
  {
    if judgeOutput.possible then
      if userOutput.possible then Correct else WrongAnswer("Expected POSSIBLE but got IMPOSSIBLE.")
    else if userOutput.possible then JudgeError("User found an answer but judge said IMPOSSIBLE")
    else Correct
  }
}
