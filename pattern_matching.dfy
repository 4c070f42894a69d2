/**
 * The Pattern Matching judge (Code Jam 2020, round 1A).  Each pattern is a
 * string of letters and asterisks, an asterisk standing for any string; the
 * contestant's answer must match every pattern.  The judge finds the fixed
 * middle pieces of a pattern left to right with Knuth-Morris-Pratt search.
 */
module PatternMatching {
  import opened Wrappers
  import opened JudgeUtils
  import opened Sequences

  const IntMax: int := 0x7fff_ffff

  // ---------------------------------------------------------------------
  // Borders and the failure table
  // ---------------------------------------------------------------------

  /** The first k characters of p end just before position i of s, and start no earlier than lo. */
  ghost predicate SuffixMatch(p: string, s: string, lo: int, i: int, k: int)
  {
    0 <= lo && 0 <= k <= |p| && k <= i - lo && i <= |s|
    && forall t, u | 0 <= t < k && u == i - k + t :: p[t] == s[u]
  }

  /** k is the longest such match. */
  ghost predicate Longest(p: string, s: string, lo: int, i: int, k: int)
  {
    SuffixMatch(p, s, lo, i, k) && forall m | k < m :: !SuffixMatch(p, s, lo, i, m)
  }

  /** k is a proper border of p[..n]: its prefix and its suffix of length k agree. */
  ghost predicate IsBorder(p: string, n: int, k: int)
  {
    SuffixMatch(p, p, 1, n, k)
  }

  /** k is the longest proper border of p[..n]. */
  ghost predicate LongestBorder(p: string, n: int, k: int)
  {
    Longest(p, p, 1, n, k)
  }

  /** A border of a matched prefix is matched too. */
  lemma BorderOfMatch(p: string, s: string, lo: int, i: int, k: int, j: int)
    requires SuffixMatch(p, s, lo, i, k) && IsBorder(p, k, j)
    ensures SuffixMatch(p, s, lo, i, j)
  {
    forall t | 0 <= t < j
      ensures p[t] == s[i - j + t]
    {
      assert p[t] == p[k - j + t];
      assert p[k - j + t] == s[i - k + (k - j + t)];
    }
  }

  /** Of two matches ending at the same place, the shorter is a border of the longer. */
  lemma MatchesNest(p: string, s: string, lo: int, i: int, k: int, m: int)
    requires SuffixMatch(p, s, lo, i, k) && SuffixMatch(p, s, lo, i, m) && m < k
    ensures IsBorder(p, k, m)
  {
    forall t | 0 <= t < m
      ensures p[t] == p[k - m + t]
    {
      assert p[t] == s[i - m + t];
      assert p[k - m + t] == s[i - k + (k - m + t)];
    }
  }

  /** A match grows by one character exactly when the next characters agree. */
  lemma ExtendMatch(p: string, s: string, lo: int, i: int, m: int)
    requires 0 <= lo <= i < |s| && 0 <= m
    ensures SuffixMatch(p, s, lo, i + 1, m + 1) <==> SuffixMatch(p, s, lo, i, m) && m < |p| && p[m] == s[i]
  {
    if SuffixMatch(p, s, lo, i + 1, m + 1) {
      forall t | 0 <= t < m
        ensures p[t] == s[i - m + t]
      {
        assert p[t] == s[i + 1 - (m + 1) + t];
      }
    }
  }

  /** One step of the inner loop: falling back to the longest border keeps every candidate. */
  lemma FallBack(p: string, s: string, lo: int, i: int, k: int, k2: int)
    requires k < |p| && i < |s|
    requires SuffixMatch(p, s, lo, i, k) && 0 < k && LongestBorder(p, k, k2)
    requires forall m | k < m && SuffixMatch(p, s, lo, i, m) :: m < |p| && p[m] != s[i]
    requires p[k] != s[i]
    ensures SuffixMatch(p, s, lo, i, k2) && k2 < k
    ensures forall m | k2 < m && SuffixMatch(p, s, lo, i, m) :: m < |p| && p[m] != s[i]
  {
    BorderOfMatch(p, s, lo, i, k, k2);
    forall m | k2 < m && SuffixMatch(p, s, lo, i, m)
      ensures m < |p| && p[m] != s[i]
    {
      if m < k {
        MatchesNest(p, s, lo, i, k, m);
        assert false;
      }
    }
  }

  /** After the inner loop: the longest match ending one position further. */
  lemma Advance(p: string, s: string, lo: int, i: int, k: int)
    requires lo <= i < |s| && k < |p|
    requires SuffixMatch(p, s, lo, i, k)
    requires forall m | k < m && SuffixMatch(p, s, lo, i, m) :: m < |p| && p[m] != s[i]
    requires k == 0 || p[k] == s[i]
    ensures Longest(p, s, lo, i + 1, if p[k] == s[i] then k + 1 else k)
  {
    var k' := if p[k] == s[i] then k + 1 else k;
    if p[k] == s[i] {
      ExtendMatch(p, s, lo, i, k);
    }
    var next := i + 1;
    forall m | k' < m && SuffixMatch(p, s, lo, next, m)
      ensures false
    {
      ExtendMatch(p, s, lo, i, m - 1);
    }
  }

  /**
   * One entry of the table: starting from the border of p[..i], fall back
   * through shorter borders until one extends by p[i], giving the longest
   * proper border of p[..i+1].
   */
  method NextBorder(p: string, table: seq<int>, i: int) returns (k: int)
    requires 1 <= i < |p| && |table| == i
    requires forall j {:trigger table[j]} | 0 <= j < i :: LongestBorder(p, j + 1, table[j])
    ensures LongestBorder(p, i + 1, k)
  {
    k := table[i - 1];
    while k > 0 && p[k] != p[i]
      invariant SuffixMatch(p, p, 1, i, k) && k < i
      invariant forall m | k < m && SuffixMatch(p, p, 1, i, m) :: m < |p| && p[m] != p[i]
    {
      FallBack(p, p, 1, i, k, table[k - 1]);
      k := table[k - 1];
    }
    Advance(p, p, 1, i, k);
    if p[k] == p[i] {
      k := k + 1;
    }
  }

  /**
   * The Knuth-Morris-Pratt failure table: entry i is the length of the
   * longest proper border of p[..i+1].
   */
  method KmpPreprocess(p: string) returns (kmp: seq<int>)
    ensures |kmp| == |p| && forall i | 0 <= i < |p| :: LongestBorder(p, i + 1, kmp[i])
  {
    if |p| == 0 {
      return [];
    }
    var a := new int[|p|](_ => 0);
    var i := 1;
    while i < |p|
      invariant 1 <= i <= |p| && a.Length == |p|
      invariant forall j {:trigger a[j]} | 0 <= j < i :: LongestBorder(p, j + 1, a[j])
    {
      var k := NextBorder(p, a[..i], i);
      a[i] := k;
      i := i + 1;
    }
    return a[..];
  }

  // ---------------------------------------------------------------------
  // Search
  // ---------------------------------------------------------------------

  /** p occurs in s starting at position j. */
  ghost predicate Occurs(p: string, s: string, j: int)
  {
    0 <= j && j + |p| <= |s| && s[j..j + |p|] == p
  }

  lemma OccursMatch(p: string, s: string, lo: int, j: int)
    requires 0 <= lo <= j
    ensures Occurs(p, s, j) <==> SuffixMatch(p, s, lo, j + |p|, |p|)
  {
    if SuffixMatch(p, s, lo, j + |p|, |p|) {
      assert s[j..j + |p|] == p;
    }
  }

  /**
   * The last index of the first occurrence of p in s that starts at or after
   * start, or IntMax when there is none.
   */
  method NextMatchEndIndex(p: string, s: string, start: int) returns (r: int)
    requires |p| >= 1 && 0 <= start && |s| <= IntMax
    ensures r == IntMax <==> forall j | start <= j :: !Occurs(p, s, j)
    ensures r != IntMax ==> r < |s| && start <= r - |p| + 1 && Occurs(p, s, r - |p| + 1)
    ensures r != IntMax ==> forall j | start <= j < r - |p| + 1 :: !Occurs(p, s, j)
  {
    var kmp := KmpPreprocess(p);
    var k := 0;
    var i := start;
    while i < |s|
      invariant start <= i && (i <= |s| || i == start)
      invariant i <= |s| ==> Longest(p, s, start, i, k)
      invariant k < |p|
      invariant forall j | start <= j && j + |p| <= i :: !Occurs(p, s, j)
    {
      while k > 0 && p[k] != s[i]
        invariant SuffixMatch(p, s, start, i, k) && k < |p|
        invariant forall m | k < m && SuffixMatch(p, s, start, i, m) :: m < |p| && p[m] != s[i]
      {
        FallBack(p, s, start, i, k, kmp[k - 1]);
        k := kmp[k - 1];
      }
      Advance(p, s, start, i, k);
      if p[k] == s[i] {
        k := k + 1;
      }
      if k == |p| {
        OccursMatch(p, s, start, i + 1 - |p|);
        return i;
      }
      forall j | start <= j && j + |p| <= i + 1
        ensures !Occurs(p, s, j)
      {
        OccursMatch(p, s, start, j);
      }
      i := i + 1;
    }
    return IntMax;
  }

  // ---------------------------------------------------------------------
  // Patterns
  // ---------------------------------------------------------------------

  /** Glob matching: '*' stands for any string, every other character for itself. */
  predicate Glob(s: string, p: string)
    decreases |p|, |s|
  {
    if p == [] then s == []
    else if p[0] == '*' then Glob(s, p[1..]) || (s != [] && Glob(s[1..], p))
    else s != [] && s[0] == p[0] && Glob(s[1..], p[1..])
  }

  predicate NoStar(p: string)
  {
    forall i | 0 <= i < |p| :: p[i] != '*'
  }

  /** A pattern without stars matches only itself. */
  lemma {:induction false} GlobLiteral(s: string, p: string)
    requires NoStar(p)
    ensures Glob(s, p) <==> s == p
  {
    if p != [] && s != [] {
      GlobLiteral(s[1..], p[1..]);
      assert s == [s[0]] + s[1..] && p == [p[0]] + p[1..];
    }
  }

  /** A fixed beginning must be matched literally. */
  lemma {:induction false} GlobPrefix(s: string, lit: string, q: string)
    requires NoStar(lit)
    ensures Glob(s, lit + q) <==> |lit| <= |s| && s[..|lit|] == lit && Glob(s[|lit|..], q)
  {
    if lit == [] {
      assert lit + q == q && s[0..] == s;
    } else {
      var p := lit + q;
      assert p[0] == lit[0] && p[1..] == lit[1..] + q;
      if s != [] {
        GlobPrefix(s[1..], lit[1..], q);
        if |lit| <= |s| {
          assert s[1..][|lit| - 1..] == s[|lit|..];
          assert s[..|lit|] == [s[0]] + s[1..][..|lit| - 1];
          assert lit == [lit[0]] + lit[1..];
        }
      }
    }
  }

  /** A fixed end must be matched literally. */
  lemma {:induction false} GlobSuffix(s: string, q: string, c: char)
    requires c != '*'
    ensures Glob(s, q + [c]) <==> |s| > 0 && s[|s| - 1] == c && Glob(s[..|s| - 1], q)
    decreases |q|, |s|
  {
    var p := q + [c];
    if q == [] {
      assert p == [c];
      if s != [] {
        assert Glob(s[1..], []) <==> |s| == 1;
      }
    } else if q[0] == '*' {
      assert p[0] == '*' && p[1..] == q[1..] + [c];
      GlobSuffix(s, q[1..], c);
      if s != [] {
        GlobSuffix(s[1..], q, c);
        if |s| > 1 {
          assert s[1..][..|s| - 2] == s[..|s| - 1][1..];
        }
      }
    } else {
      assert p[0] == q[0] && p[1..] == q[1..] + [c];
      if s != [] {
        GlobSuffix(s[1..], q[1..], c);
        if |s| > 1 {
          assert s[1..][..|s| - 2] == s[..|s| - 1][1..];
        }
      }
    }
  }

  /** A leading star skips any prefix. */
  lemma {:induction false} GlobStar(s: string, q: string)
    ensures Glob(s, "*" + q) <==> exists j | 0 <= j <= |s| :: Glob(s[j..], q)
  {
    var p := "*" + q;
    assert p[0] == '*' && p[1..] == q;
    assert s[0..] == s;
    if s != [] {
      GlobStar(s[1..], q);
      if exists j | 0 <= j <= |s| :: Glob(s[j..], q) {
        var j :| 0 <= j <= |s| && Glob(s[j..], q);
        if j > 0 {
          assert s[1..][j - 1..] == s[j..];
        }
      }
      if Glob(s[1..], p) {
        var j :| 0 <= j <= |s| - 1 && Glob(s[1..][j..], q);
        assert s[1..][j..] == s[j + 1..];
      }
    }
  }

  /** The pattern "*" matches every string. */
  lemma StarMatchesAll(s: string)
    ensures Glob(s, "*")
  {
    GlobStar(s, "");
    assert "*" + "" == "*" && s[|s|..] == "";
  }

  /** Two stars in a row match what one does. */
  lemma GlobStarStar(s: string, q: string)
    ensures Glob(s, "*" + ("*" + q)) <==> Glob(s, "*" + q)
  {
    GlobStar(s, "*" + q);
    GlobStar(s, q);
    forall j | 0 <= j <= |s|
      ensures Glob(s[j..], "*" + q) <==> exists m | 0 <= m <= |s| - j :: Glob(s[j..][m..], q)
    {
      GlobStar(s[j..], q);
    }
    if Glob(s, "*" + ("*" + q)) {
      var j :| 0 <= j <= |s| && Glob(s[j..], "*" + q);
      var m :| 0 <= m <= |s| - j && Glob(s[j..][m..], q);
      assert s[j..][m..] == s[j + m..];
    }
  }

  /** A star-led pattern matching a suffix matches every longer suffix. */
  lemma GlobStarLonger(x: string, i: int, j: int, q: string)
    requires 0 <= i <= j <= |x| && Glob(x[j..], "*" + q)
    ensures Glob(x[i..], "*" + q)
  {
    GlobStar(x[j..], q);
    GlobStar(x[i..], q);
    var m :| 0 <= m <= |x| - j && Glob(x[j..][m..], q);
    assert x[j..][m..] == x[i..][j - i + m..];
  }

  lemma OccursShift(lit: string, x: string, c: int, j: int)
    requires 0 <= c <= |x| && 0 <= j
    ensures Occurs(lit, x[c..], j) <==> Occurs(lit, x, c + j)
  {
    if j + |lit| <= |x| - c {
      assert x[c..][j..j + |lit|] == x[c + j..c + j + |lit|];
    }
  }

  /** A fixed piece at position j: an occurrence there, then the rest. */
  lemma PieceAt(x: string, lit: string, rest: string, j: int)
    requires NoStar(lit) && 0 <= j <= |x|
    ensures Glob(x[j..], lit + rest) <==> Occurs(lit, x, j) && Glob(x[j + |lit|..], rest)
  {
    GlobPrefix(x[j..], lit, rest);
    if |lit| <= |x| - j {
      assert x[j..][..|lit|] == x[j..j + |lit|];
      assert x[j..][|lit|..] == x[j + |lit|..];
    }
  }

  /** Between two stars a fixed piece matches at an occurrence, and the first occurrence is the best one. */
  lemma GlobPiece(x: string, lit: string, q: string)
    requires NoStar(lit)
    ensures Glob(x, "*" + lit + "*" + q) ==> exists j | 0 <= j :: Occurs(lit, x, j)
    ensures forall j0 | Occurs(lit, x, j0) && (forall j | 0 <= j < j0 :: !Occurs(lit, x, j)) ::
      Glob(x, "*" + lit + "*" + q) <==> Glob(x[j0 + |lit|..], "*" + q)
  {
    var rest := "*" + q;
    assert "*" + lit + "*" + q == "*" + (lit + rest);
    GlobStar(x, lit + rest);
    if Glob(x, "*" + lit + "*" + q) {
      var j :| 0 <= j <= |x| && Glob(x[j..], lit + rest);
      PieceAt(x, lit, rest, j);
    }
    forall j0 | Occurs(lit, x, j0) && (forall j | 0 <= j < j0 :: !Occurs(lit, x, j))
      ensures Glob(x, "*" + lit + "*" + q) <==> Glob(x[j0 + |lit|..], rest)
    {
      if Glob(x, "*" + lit + "*" + q) {
        var j :| 0 <= j <= |x| && Glob(x[j..], lit + rest);
        PieceAt(x, lit, rest, j);
        GlobStarLonger(x, j0 + |lit|, j + |lit|, q);
      }
      if Glob(x[j0 + |lit|..], rest) {
        PieceAt(x, lit, rest, j0);
      }
    }
  }

  // ---------------------------------------------------------------------
  // PatternMatch
  // ---------------------------------------------------------------------

  /** x as the stripping loop sees it in round `round`: reversed in the second round. */
  ghost function Orient(x: string, round: int): string
  {
    if round == 1 then Reverse(x) else x
  }

  /**
   * Whether the string matches the pattern.  A pattern without stars is
   * compared directly.  Otherwise the fixed ends are stripped and the pieces
   * between stars are found left to right.
   */
  method PatternMatch(longString: string, pattern: string) returns (b: bool)
    requires |longString| < IntMax
    ensures b <==> Glob(longString, pattern)
  {
    if NoStar(pattern) {
      GlobLiteral(longString, pattern);
      return longString == pattern;
    }
    var ok, l, p := StripFixedEnds(longString, pattern);
    if !ok {
      return false;
    }
    b := MatchPieces(l, p);
  }

  /** A fixed end must be matched literally. */
  lemma {:induction false} GlobTail(s: string, q: string, t: string)
    requires NoStar(t)
    ensures Glob(s, q + t) <==> |t| <= |s| && s[|s| - |t|..] == t && Glob(s[..|s| - |t|], q)
  {
    if t == [] {
      assert q + t == q && s[..|s|] == s;
    } else {
      var c := t[|t| - 1];
      var t' := t[..|t| - 1];
      assert q + t == (q + t') + [c];
      GlobSuffix(s, q + t', c);
      if s != [] {
        var s' := s[..|s| - 1];
        GlobTail(s', q, t');
        if |t| <= |s| {
          var k := |s| - |t|;
          assert |s'| - |t'| == k;
          assert s'[..k] == s[..k];
          assert s'[k..] == s[k..|s| - 1];
          assert s[k..] == s[k..|s| - 1] + [s[|s| - 1]];
          assert t == t' + [c];
        }
      }
    }
  }

  lemma ReverseConcat<T>(a: seq<T>, b: seq<T>)
    ensures Reverse(a + b) == Reverse(b) + Reverse(a)
  {
    assert forall i | 0 <= i < |a| + |b| :: Reverse(a + b)[i] == (Reverse(b) + Reverse(a))[i];
  }

  /** The number of characters after the last star (all of them when there is none). */
  function TailLength(p: string): (n: nat)
    ensures n <= |p| && NoStar(p[|p| - n..])
    ensures !NoStar(p) ==> n < |p| && p[|p| - n - 1] == '*'
  {
    if p == [] || p[|p| - 1] == '*' then 0
    else
      var n := 1 + TailLength(p[..|p| - 1]);
      assert p[|p| - n..] == p[..|p| - 1][|p| - n..] + [p[|p| - 1]];
      n
  }

  /**
   * The stripping loop of PatternMatch, one round: while the pattern does
   * not end in '*', its last character must equal the string's last
   * character, and both are dropped.  The result is false when a character
   * differs or the string runs out.
   */
  method StripEnd(l0: string, p0: string) returns (ok: bool, l: string, p: string)
    requires !NoStar(p0)
    ensures var n := TailLength(p0); ok <==> n <= |l0| && l0[|l0| - n..] == p0[|p0| - n..]
    ensures ok ==> p == p0[..|p0| - TailLength(p0)] && l == l0[..|l0| - TailLength(p0)]
  {
    ghost var n := TailLength(p0);
    l, p := l0, p0;
    while p[|p| - 1] != '*'
      invariant |p| >= 1 && !NoStar(p) && p == p0[..|p|] && n == |p0| - |p| + TailLength(p)
      invariant |l0| - |l| == |p0| - |p| && l == l0[..|l|] && l0[|l|..] == p0[|p|..]
      decreases |p|
    {
      if l == [] {
        return false, l, p;
      }
      if l[|l| - 1] != p[|p| - 1] {
        assert l0[|l| - 1] != p0[|p| - 1];
        if n <= |l0| {
          assert l0[|l0| - n..][|l| - 1 - (|l0| - n)] != p0[|p0| - n..][|l| - 1 - (|l0| - n)];
        }
        return false, l, p;
      }
      StripStep(l0, p0, l, p, l[..|l| - 1], p[..|p| - 1]);
      l := l[..|l| - 1];
      p := p[..|p| - 1];
    }
    return true, l, p;
  }

  /** Dropping one more matching character keeps the stripping loop's invariant. */
  lemma StripStep(l0: string, p0: string, l: string, p: string, l': string, p': string)
    requires 1 <= |p| <= |p0| && p == p0[..|p|] && p[|p| - 1] != '*' && !NoStar(p)
    requires 1 <= |l| <= |l0| && |l0| - |l| == |p0| - |p| && l == l0[..|l|] && l0[|l|..] == p0[|p|..]
    requires l[|l| - 1] == p[|p| - 1]
    requires l' == l[..|l| - 1] && p' == p[..|p| - 1]
    ensures TailLength(p) == 1 + TailLength(p')
    ensures |p'| >= 1 && !NoStar(p') && p' == p0[..|p'|]
    ensures |l0| - |l'| == |p0| - |p'| && l' == l0[..|l'|] && l0[|l'|..] == p0[|p'|..]
  {
    assert l0[|l| - 1..] == [l[|l| - 1]] + l0[|l|..];
    assert p0[|p| - 1..] == [p[|p| - 1]] + p0[|p|..];
    var i :| 0 <= i < |p| && p[i] == '*';
    assert p'[i] == '*';
  }

  /** A round on the strings as they are: the fixed end is matched against the end. */
  lemma ForwardRound(l0: string, q: string, t: string, ok: bool, l: string)
    requires NoStar(t)
    requires ok <==> |t| <= |l0| && l0[|l0| - |t|..] == t
    requires ok ==> l == l0[..|l0| - |t|]
    ensures Glob(l0, q + t) <==> ok && Glob(l, q)
  {
    GlobTail(l0, q, t);
  }

  /** A round on the reversed strings: the fixed end stripped there is the fixed beginning. */
  lemma ReversedRound(l0: string, q: string, t: string, ok: bool, l: string)
    requires NoStar(t)
    requires ok <==> |t| <= |l0| && l0[|l0| - |t|..] == t
    requires ok ==> l == l0[..|l0| - |t|]
    ensures Glob(Reverse(l0), Reverse(q + t)) <==> ok && Glob(Reverse(l), Reverse(q))
  {
    ReverseConcat(q, t);
    assert NoStar(Reverse(t));
    GlobPrefix(Reverse(l0), Reverse(t), Reverse(q));
    if |t| <= |l0| {
      var m := |l0| - |t|;
      assert l0 == l0[..m] + l0[m..];
      ReverseConcat(l0[..m], l0[m..]);
      assert Reverse(l0)[..|t|] == Reverse(l0[m..]);
      assert Reverse(l0)[|t|..] == Reverse(l0[..m]);
      if Reverse(l0[m..]) == Reverse(t) {
        ReverseReverse(l0[m..]);
        ReverseReverse(t);
      }
    }
  }

  /** What one round of StripFixedEnds achieves, given what StripEnd promises. */
  lemma RoundFacts(l0: string, p0: string, round: int, ok: bool, l: string, p: string)
    requires round == 0 || round == 1
    requires !NoStar(p0) && (round == 1 ==> p0[0] == '*')
    requires var n := TailLength(p0); ok <==> n <= |l0| && l0[|l0| - n..] == p0[|p0| - n..]
    requires ok ==> p == p0[..|p0| - TailLength(p0)] && l == l0[..|l0| - TailLength(p0)]
    ensures ok ==> |l| <= |l0| && |p| >= 1 && p[|p| - 1] == '*' && (round == 1 ==> p[0] == '*')
    ensures Glob(Orient(l0, round), Orient(p0, round)) <==> ok && Glob(Orient(Reverse(l), round + 1), Orient(Reverse(p), round + 1))
  {
    var n := TailLength(p0);
    var q, t := p0[..|p0| - n], p0[|p0| - n..];
    assert p0 == q + t;
    if ok {
      StrippedShape(p0, round, p);
    }
    if round == 0 {
      ForwardRoundOriented(l0, q, t, ok, l);
    } else {
      ReversedRound(l0, q, t, ok, l);
    }
  }

  /** The stripped pattern still ends in a star, and still starts with one in the second round. */
  lemma StrippedShape(p0: string, round: int, p: string)
    requires !NoStar(p0) && (round == 1 ==> p0[0] == '*')
    requires p == p0[..|p0| - TailLength(p0)]
    ensures |p| >= 1 && p[|p| - 1] == '*' && (round == 1 ==> p[0] == '*')
  {
    var n := TailLength(p0);
    assert p[|p| - 1] == p0[|p0| - n - 1];
  }

  /** The first round stated on the oriented strings: the second round sees them reversed. */
  lemma ForwardRoundOriented(l0: string, q: string, t: string, ok: bool, l: string)
    requires NoStar(t)
    requires ok <==> |t| <= |l0| && l0[|l0| - |t|..] == t
    requires ok ==> l == l0[..|l0| - |t|]
    ensures Glob(l0, q + t) <==> ok && Glob(Reverse(Reverse(l)), Reverse(Reverse(q)))
  {
    ForwardRound(l0, q, t, ok, l);
    ReverseReverse(l);
    ReverseReverse(q);
  }

  /**
   * The first part of PatternMatch: the fixed end of the pattern is matched
   * and dropped, then the fixed beginning, for which the source reverses
   * both strings and strips the end again; a second reversal restores them.
   */
  method StripFixedEnds(longString: string, pattern: string) returns (ok: bool, l: string, p: string)
    requires !NoStar(pattern)
    ensures ok ==> |l| <= |longString| && |p| >= 1 && p[0] == '*' && p[|p| - 1] == '*'
    ensures ok ==> (Glob(longString, pattern) <==> Glob(l, p))
    ensures !ok ==> !Glob(longString, pattern)
  {
    l, p := longString, pattern;
    for round := 0 to 2
      invariant |l| <= |longString| && !NoStar(p)
      invariant Glob(longString, pattern) <==> Glob(Orient(l, round), Orient(p, round))
      invariant round == 1 ==> p[0] == '*'
      invariant round == 2 ==> p[0] == '*' && p[|p| - 1] == '*'
    {
      var l0, p0 := l, p;
      ok, l, p := StripEnd(l0, p0);
      RoundFacts(l0, p0, round, ok, l, p);
      if !ok {
        return false, l, p;
      }
      assert Reverse(p)[0] == p[|p| - 1] && Reverse(p)[|p| - 1] == p[0];
      l := Reverse(l);
      p := Reverse(p);
    }
    return true, l, p;
  }

  /**
   * One fixed piece between two stars, as MatchPieces handles it: find its
   * first occurrence from `index` on and continue after it.
   */
  method FindPiece(l: string, index: int, piece: string, ghost rest: string) returns (found: bool, next: int)
    requires |l| < IntMax && 0 <= index <= |l| && NoStar(piece) && |piece| > 0
    ensures found ==> (index <= next <= |l| &&
      (Glob(l[index..], "*" + piece + "*" + rest) <==> Glob(l[next..], "*" + rest)))
    ensures !found ==> !Glob(l[index..], "*" + piece + "*" + rest)
  {
    ghost var x := l[index..];
    GlobPiece(x, piece, rest);
    var e := NextMatchEndIndex(piece, l, index);
    if e > |l| {
      forall j | 0 <= j
        ensures !Occurs(piece, x, j)
      {
        OccursShift(piece, l, index, j);
      }
      return false, index;
    }
    var j0 := e - |piece| + 1 - index;
    OccursShift(piece, l, index, j0);
    forall j | 0 <= j < j0
      ensures !Occurs(piece, x, j)
    {
      OccursShift(piece, l, index, j);
    }
    assert x[j0 + |piece|..] == l[e + 1..];
    return true, e + 1;
  }

  /**
   * The second part of PatternMatch: with both ends stars, each fixed piece
   * between two stars is found at its first occurrence after the previous
   * piece.
   */
  method MatchPieces(l: string, p: string) returns (b: bool)
    requires |l| < IntMax && |p| >= 1 && p[0] == '*' && p[|p| - 1] == '*'
    ensures b <==> Glob(l, p)
  {
    var index := 0;
    var current: string := "";
    for i := 0 to |p|
      invariant 0 <= index <= |l|
      invariant NoStar(current)
      invariant i == 0 ==> index == 0 && current == []
      invariant i > 0 ==> (Glob(l, p) <==> Glob(l[index..], "*" + current + p[i..]))
      invariant i > 0 && p[i - 1] == '*' ==> current == []
    {
      if p[i] == '*' {
        if |current| > 0 {
          ghost var rest := p[i + 1..];
          assert p[i..] == "*" + rest;
          assert "*" + current + p[i..] == "*" + current + "*" + rest;
          var found, next := FindPiece(l, index, current, rest);
          if !found {
            return false;
          }
          index := next;
          current := "";
          assert "*" + current + p[i + 1..] == "*" + rest;
        } else if i > 0 {
          GlobStarStar(l[index..], p[i + 1..]);
          assert "*" + current + p[i..] == "*" + ("*" + p[i + 1..]);
          assert "*" + current + p[i + 1..] == "*" + p[i + 1..];
        } else {
          assert p == "*" + current + p[1..] && l[0..] == l;
        }
      } else {
        assert "*" + current + p[i..] == "*" + (current + [p[i]]) + p[i + 1..];
        current := current + [p[i]];
      }
    }
    var x := l[index..];
    GlobStar(x, []);
    assert x[|x|..] == [];
    assert "*" + current + p[|p|..] == "*" + [];
    return true;
  }

  /** How one round of stripping a fixed end ends. */
  datatype Stripped = Stripped(rest: string, pattern: string) | Mismatch | ReadsBeforeStart

  /**
   * One round of the stripping loop as the source writes it: while the
   * pattern does not end in '*', compare and drop the last characters.  The
   * source takes the last character of the string without checking that
   * there is one; that case is ReadsBeforeStart.
   */
  function StripEndAsWritten(l: string, p: string): (r: Stripped)
    requires !NoStar(p)
    ensures r.Stripped? ==> !NoStar(r.pattern) && r.pattern[|r.pattern| - 1] == '*'
    ensures r.Stripped? ==> |r.rest| <= |l| && r.rest == l[..|r.rest|]
    decreases |p|
  {
    if p[|p| - 1] == '*' then Stripped(l, p)
    else if l == [] then ReadsBeforeStart
    else if l[|l| - 1] != p[|p| - 1] then Mismatch
    else
      assert !NoStar(p[..|p| - 1]);
      StripEndAsWritten(l[..|l| - 1], p[..|p| - 1])
  }

  /** Both rounds as the source runs them: the end, then the beginning by way of a reversal. */
  function StripEndsAsWritten(l: string, p: string): Stripped
    requires !NoStar(p)
  {
    match StripEndAsWritten(l, p)
    case Stripped(l1, p1) =>
      var q := Reverse(p1);
      assert q[0] == '*';
      (match StripEndAsWritten(Reverse(l1), q)
       case Stripped(l2, p2) => Stripped(Reverse(l2), Reverse(p2))
       case other => other)
    case other => other
  }

  /**
   * For the string "a" and the pattern "a*a", stripping the end uses up the
   * string, and stripping the beginning then reads before its start.
   */
  lemma StripReadsBeforeStart()
    ensures !NoStar("a*a") && StripEndsAsWritten("a", "a*a") == ReadsBeforeStart
  {
    assert "a*a"[1] == '*' && "a*"[1] == '*';
    assert "a*a"[..2] == "a*" && "a"[..0] == "";
    assert StripEndAsWritten("", "a*") == Stripped("", "a*");
    assert StripEndAsWritten("a", "a*a") == Stripped("", "a*");
    var q := Reverse("a*");
    assert q == "*a";
    assert Reverse("") == "";
  }

  // ---------------------------------------------------------------------
  // Judging a case
  // ---------------------------------------------------------------------

  const ImpossibleKeyword := "*"
  const MinOutputLength := 1
  const MaxOutputLength := 10000

  predicate IsLower(c: char)
  {
    'a' <= c <= 'z'
  }

  function MatchError(i: int): string
  {
    "Solution string does not match pattern #" + Decimal(i)
  }

  /**
   * Checks the contestant's answer for one case: "*" claims there is no
   * answer, which is right exactly when ours says so; otherwise the answer
   * must be 1 to 10000 lower-case letters matching every pattern.  The
   * first pattern it fails is reported, counted from 1.
   */
  method JudgeCase(input: seq<string>, correct: string, attempt: string) returns (e: string)
    ensures attempt == ImpossibleKeyword ==> (e == "" <==> correct == ImpossibleKeyword)
    ensures attempt != ImpossibleKeyword ==>
      (e == "" <==> MinOutputLength <= |attempt| <= MaxOutputLength
                    && (forall i | 0 <= i < |attempt| :: IsLower(attempt[i]))
                    && forall i | 0 <= i < |input| :: Glob(attempt, input[i]))
    ensures attempt != ImpossibleKeyword && |attempt| < MinOutputLength ==> e == "Solution string is too short"
    ensures attempt != ImpossibleKeyword && |attempt| > MaxOutputLength ==> e == "Solution string is too long"
    ensures attempt != ImpossibleKeyword && MinOutputLength <= |attempt| <= MaxOutputLength
            && (forall i | 0 <= i < |attempt| :: IsLower(attempt[i])) && e != "" ==>
      exists i | 0 <= i < |input| :: e == MatchError(i + 1) && !Glob(attempt, input[i])
        && forall j | 0 <= j < i :: Glob(attempt, input[j])
  {
    if attempt == ImpossibleKeyword {
      return if correct == ImpossibleKeyword then "" else
        "Contestant claims a solution does not exist while judge finds a solution";
    }
    if |attempt| < MinOutputLength {
      return "Solution string is too short";
    }
    if |attempt| > MaxOutputLength {
      return "Solution string is too long";
    }
    if exists i | 0 <= i < |attempt| :: !IsLower(attempt[i]) {
      return "A non-English character found";
    }
    for i := 0 to |input|
      invariant forall j | 0 <= j < i :: Glob(attempt, input[j])
    {
      var ok := PatternMatch(attempt, input[i]);
      if !ok {
        e := MatchError(i + 1);
        assert e[0] == 'S';
        return;
      }
    }
    return "";
  }
}
