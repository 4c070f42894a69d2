/**
 * Sequences of (key, value) pairs in key order, and the dictionary such a
 * sequence denotes.  The red-black tree's in-order contents are one of these.
 */
module OrderedPairs {

  /** Keys strictly increase along the sequence. */
  ghost predicate Sorted<V>(s: seq<(int, V)>)
  {
    forall i, j :: 0 <= i < j < |s| ==> s[i].0 < s[j].0
  }

  ghost function KeysOf<V>(s: seq<(int, V)>): set<int>
  {
    set i | 0 <= i < |s| :: s[i].0
  }

  /** The dictionary a sequence of pairs denotes (the first pair of a key wins). */
  ghost function MapOf<V>(s: seq<(int, V)>): map<int, V>
  {
    if s == [] then map[] else MapOf(s[1..])[s[0].0 := s[0].1]
  }

  /** Every key of `a` is below `k`, and every key of `b` above it. */
  ghost predicate Around<V>(a: seq<(int, V)>, k: int, b: seq<(int, V)>)
  {
    (forall p | p in a :: p.0 < k) && (forall p | p in b :: p.0 > k)
  }

  /** In a + f + b with a below k and b above it, the positions before f hold smaller keys and those after it larger ones. */
  lemma AroundIndex<V>(a: seq<(int, V)>, f: seq<(int, V)>, b: seq<(int, V)>, k: int)
    requires Around(a, k, b)
    ensures forall j | 0 <= j < |a| :: (a + f + b)[j].0 < k
    ensures forall j | |a| + |f| <= j < |a + f + b| :: (a + f + b)[j].0 > k
  {
    var e := a + f + b;
    forall j | 0 <= j < |a|
      ensures e[j].0 < k
    {
      assert e[j] == a[j] && a[j] in a;
    }
    forall j | |a| + |f| <= j < |e|
      ensures e[j].0 > k
    {
      assert e[j] == b[j - |a| - |f|] && b[j - |a| - |f|] in b;
    }
  }

  lemma SortedSplit<V>(a: seq<(int, V)>, b: seq<(int, V)>)
    requires Sorted(a + b)
    ensures Sorted(a) && Sorted(b)
    ensures forall p, q | p in a && q in b :: p.0 < q.0
  {
    forall p, q | p in a && q in b
      ensures p.0 < q.0
    {
      var i :| 0 <= i < |a| && a[i] == p;
      var j :| 0 <= j < |b| && b[j] == q;
      assert (a + b)[i] == p && (a + b)[|a| + j] == q;
    }
    forall i, j | 0 <= i < j < |b|
      ensures b[i].0 < b[j].0
    {
      assert (a + b)[|a| + i] == b[i] && (a + b)[|a| + j] == b[j];
    }
    forall i, j | 0 <= i < j < |a|
      ensures a[i].0 < a[j].0
    {
      assert (a + b)[i] == a[i] && (a + b)[j] == a[j];
    }
  }

  lemma SortedJoin<V>(a: seq<(int, V)>, b: seq<(int, V)>)
    requires Sorted(a) && Sorted(b)
    requires forall p, q | p in a && q in b :: p.0 < q.0
    ensures Sorted(a + b)
  {
    forall i, j | 0 <= i < j < |a + b|
      ensures (a + b)[i].0 < (a + b)[j].0
    {
      if j < |a| {
        assert (a + b)[i] == a[i] && (a + b)[j] == a[j];
      } else if i < |a| {
        assert (a + b)[i] == a[i] && (a + b)[j] == b[j - |a|];
        assert a[i] in a && b[j - |a|] in b;
      } else {
        assert (a + b)[i] == b[i - |a|] && (a + b)[j] == b[j - |a|];
      }
    }
  }

  /** A key between two sorted runs can be placed between them. */
  lemma SortedInsert<V>(a: seq<(int, V)>, k: int, v: V, b: seq<(int, V)>)
    requires Sorted(a + b) && Around(a, k, b)
    ensures Sorted(a + [(k, v)] + b)
  {
    SortedSplit(a, b);
    SortedJoin(a, [(k, v)]);
    forall p, q | p in a + [(k, v)] && q in b
      ensures p.0 < q.0
    {
    }
    SortedJoin(a + [(k, v)], b);
  }

  lemma SortedRemove<V>(s: seq<(int, V)>, i: nat)
    requires Sorted(s) && i < |s|
    ensures Sorted(s[..i] + s[i + 1..])
  {
    assert s == s[..i] + s[i..];
    SortedSplit(s[..i], s[i..]);
    assert s[i..] == [s[i]] + s[i + 1..];
    SortedSplit([s[i]], s[i + 1..]);
    SortedJoin(s[..i], s[i + 1..]);
  }

  lemma {:induction false} MapOfKeys<V>(s: seq<(int, V)>)
    ensures MapOf(s).Keys == KeysOf(s)
    decreases |s|
  {
    if s != [] {
      MapOfKeys(s[1..]);
      assert KeysOf(s) == KeysOf(s[1..]) + {s[0].0} by {
        forall k | k in KeysOf(s)
          ensures k in KeysOf(s[1..]) + {s[0].0}
        {
          var i :| 0 <= i < |s| && s[i].0 == k;
          if i > 0 {
            assert s[1..][i - 1] == s[i];
          }
        }
        forall k | k in KeysOf(s[1..])
          ensures k in KeysOf(s)
        {
          var i :| 0 <= i < |s[1..]| && s[1..][i].0 == k;
          assert s[i + 1] == s[1..][i];
        }
      }
    }
  }

  lemma KeysOfMember<V>(s: seq<(int, V)>, k: int)
    ensures k in KeysOf(s) <==> exists p :: p in s && p.0 == k
  {
    if k in KeysOf(s) {
      var i :| 0 <= i < |s| && s[i].0 == k;
      assert s[i] in s;
    }
  }

  /** The pairs in front win, so a concatenation denotes the union with the front taking precedence. */
  lemma {:induction false} MapOfConcat<V>(a: seq<(int, V)>, b: seq<(int, V)>)
    ensures MapOf(a + b) == MapOf(b) + MapOf(a)
    decreases |a|
  {
    if a == [] {
      assert a + b == b;
    } else {
      assert (a + b)[0] == a[0] && (a + b)[1..] == a[1..] + b;
      MapOfConcat(a[1..], b);
    }
  }

  /** In a sorted sequence each pair's key maps to that pair's value. */
  lemma {:induction false} MapOfAt<V>(s: seq<(int, V)>, i: nat)
    requires Sorted(s) && i < |s|
    ensures s[i].0 in MapOf(s) && MapOf(s)[s[i].0] == s[i].1
    decreases |s|
  {
    if i > 0 {
      assert s[1..][i - 1] == s[i];
      MapOfAt(s[1..], i - 1);
    }
  }

  /** A key strictly between two runs is a key of neither. */
  lemma AroundAbsent<V>(a: seq<(int, V)>, k: int, b: seq<(int, V)>)
    requires Around(a, k, b)
    ensures k !in MapOf(a + b)
  {
    MapOfConcat(a, b);
    MapOfKeys(a);
    MapOfKeys(b);
    KeysOfMember(a, k);
    KeysOfMember(b, k);
  }

  /** Inserting a pair whose key is new adds that key to the dictionary. */
  lemma MapOfInsert<V>(a: seq<(int, V)>, k: int, v: V, b: seq<(int, V)>)
    requires Around(a, k, b)
    ensures MapOf(a + [(k, v)] + b) == MapOf(a + b)[k := v]
    ensures k !in MapOf(a + b)
  {
    MapOfConcat(a + [(k, v)], b);
    MapOfConcat(a, [(k, v)]);
    MapOfConcat(a, b);
    MapOfKeys(a);
    MapOfKeys(b);
    KeysOfMember(a, k);
    KeysOfMember(b, k);
    assert MapOf([(k, v)]) == map[k := v] by {
      assert [(k, v)][1..] == [];
    }
    MergeInsert(MapOf(a), MapOf(b), k, v);
  }

  /** Adding a key that the front map lacks commutes with the union. */
  lemma MergeInsert<V>(front: map<int, V>, back: map<int, V>, k: int, v: V)
    requires k !in front
    ensures back + (map[k := v] + front) == (back + front)[k := v]
  {
    var l, r := back + (map[k := v] + front), (back + front)[k := v];
    assert l.Keys == r.Keys;
    forall key | key in l.Keys
      ensures l[key] == r[key]
    {
    }
  }

  /** In a sorted sequence the pairs before position `i` have smaller keys and those after it larger ones. */
  lemma SortedAround<V>(s: seq<(int, V)>, i: nat)
    requires Sorted(s) && i < |s|
    ensures Around(s[..i], s[i].0, s[i + 1..])
  {
    forall p | p in s[..i]
      ensures p.0 < s[i].0
    {
      var j :| 0 <= j < i && s[..i][j] == p;
    }
    forall p | p in s[i + 1..]
      ensures p.0 > s[i].0
    {
      var j :| 0 <= j < |s| - i - 1 && s[i + 1..][j] == p;
      assert p == s[i + 1 + j];
    }
  }

  /** Removing the pair at `i` of a sorted sequence removes its key from the dictionary. */
  lemma MapOfRemove<V>(s: seq<(int, V)>, i: nat)
    requires Sorted(s) && i < |s|
    ensures MapOf(s[..i] + s[i + 1..]) == MapOf(s) - {s[i].0}
  {
    var a, b := s[..i], s[i + 1..];
    var (k, v) := s[i];
    assert s == a + [(k, v)] + b;
    SortedAround(s, i);
    MapOfInsert(a, k, v, b);
    var m := MapOf(a + b);
    assert k !in m && MapOf(s) == m[k := v];
    UpdateThenRemove(m, k, v);
  }

  lemma UpdateThenRemove<V>(m: map<int, V>, k: int, v: V)
    requires k !in m
    ensures m[k := v] - {k} == m
  {
  }

  /** Giving the pair at `i` of a sorted sequence a new value updates its key in the dictionary. */
  lemma MapOfUpdate<V>(s: seq<(int, V)>, i: nat, v: V)
    requires Sorted(s) && i < |s|
    ensures MapOf(s[i := (s[i].0, v)]) == MapOf(s)[s[i].0 := v]
  {
    var a, b := s[..i], s[i + 1..];
    assert s == a + [s[i]] + b;
    assert s[i := (s[i].0, v)] == a + [(s[i].0, v)] + b;
    SortedAround(s, i);
    MapOfInsert(a, s[i].0, s[i].1, b);
    MapOfInsert(a, s[i].0, v, b);
  }

  lemma SortedSetValue<V>(s: seq<(int, V)>, i: nat, v: V)
    requires Sorted(s) && i < |s|
    ensures Sorted(s[i := (s[i].0, v)])
  {
    var s' := s[i := (s[i].0, v)];
    forall a, b | 0 <= a < b < |s'|
      ensures s'[a].0 < s'[b].0
    {
      assert s'[a].0 == s[a].0 && s'[b].0 == s[b].0;
    }
  }

  /** A sorted sequence has as many distinct keys as pairs. */
  lemma {:induction false} SortedKeysCount<V>(s: seq<(int, V)>)
    requires Sorted(s)
    ensures |KeysOf(s)| == |s|
    decreases |s|
  {
    if s != [] {
      var t := s[1..];
      assert Sorted(t) by {
        forall i, j | 0 <= i < j < |t|
          ensures t[i].0 < t[j].0
        {
          assert t[i] == s[i + 1] && t[j] == s[j + 1];
        }
      }
      SortedKeysCount(t);
      assert KeysOf(s) == KeysOf(t) + {s[0].0} by {
        forall k | k in KeysOf(s)
          ensures k in KeysOf(t) + {s[0].0}
        {
          var i :| 0 <= i < |s| && s[i].0 == k;
          if i > 0 {
            assert t[i - 1] == s[i];
          }
        }
        forall k | k in KeysOf(t)
          ensures k in KeysOf(s)
        {
          var i :| 0 <= i < |t| && t[i].0 == k;
          assert s[i + 1] == t[i];
        }
      }
      assert s[0].0 !in KeysOf(t) by {
        forall i | 0 <= i < |t|
          ensures t[i].0 != s[0].0
        {
          assert s[i + 1] == t[i];
        }
      }
    }
  }

  /**
   * Sorted pairs cut after position `i`: keys up to the cut are at most `key`,
   * keys after it above.  Then no key exceeds `key` exactly when the cut is at
   * the end, and otherwise the pair at `i` holds the smallest key above `key`.
   */
  lemma FirstAbove<V>(s: seq<(int, V)>, i: nat, key: int)
    requires Sorted(s) && i <= |s|
    requires 0 < i ==> s[i - 1].0 <= key
    requires i < |s| ==> key < s[i].0
    ensures (forall k | k in MapOf(s) :: k <= key) <==> i == |s|
    ensures i < |s| ==> s[i].0 in MapOf(s) && forall k | k in MapOf(s) :: k <= key || s[i].0 <= k
  {
    MapOfKeys(s);
    forall k | k in MapOf(s)
      ensures k <= key || (i < |s| && s[i].0 <= k)
    {
      var j :| 0 <= j < |s| && s[j].0 == k;
      if j + 1 < i {
        assert s[j].0 < s[i - 1].0;
      }
    }
    if i < |s| {
      assert s[i].0 in KeysOf(s);
    }
  }

  /**
   * The mirror image: keys before the cut are below `key`, keys from it on are
   * at least `key`.  Then no key is below `key` exactly when the cut is at the
   * start, and otherwise the pair before the cut holds the largest key below `key`.
   */
  lemma LastBelow<V>(s: seq<(int, V)>, i: nat, key: int)
    requires Sorted(s) && i <= |s|
    requires 0 < i ==> s[i - 1].0 < key
    requires i < |s| ==> key <= s[i].0
    ensures (forall k | k in MapOf(s) :: key <= k) <==> i == 0
    ensures 0 < i ==> s[i - 1].0 in MapOf(s) && forall k | k in MapOf(s) :: key <= k || k <= s[i - 1].0
  {
    MapOfKeys(s);
    forall k | k in MapOf(s)
      ensures key <= k || (0 < i && k <= s[i - 1].0)
    {
      var j :| 0 <= j < |s| && s[j].0 == k;
      if i < j {
        assert s[i].0 < s[j].0;
      }
    }
    if 0 < i {
      assert s[i - 1].0 in KeysOf(s);
    }
  }

  /** The keys of sorted pairs, in order: strictly increasing, and exactly the dictionary's keys. */
  lemma SortedKeyList<V>(s: seq<(int, V)>, ks: seq<int>)
    requires Sorted(s) && |ks| == |s|
    requires forall i | 0 <= i < |s| :: ks[i] == s[i].0
    ensures forall i, j | 0 <= i < j < |ks| :: ks[i] < ks[j]
    ensures forall k :: k in ks <==> k in MapOf(s)
    ensures |ks| == |MapOf(s)|
  {
    MapOfKeys(s);
    SortedKeysCount(s);
    forall k
      ensures k in ks <==> k in KeysOf(s)
    {
      if k in ks {
        var i :| 0 <= i < |ks| && ks[i] == k;
        assert s[i].0 == k;
      }
      if k in KeysOf(s) {
        var i :| 0 <= i < |s| && s[i].0 == k;
        assert ks[i] == k;
      }
    }
  }

  /** Adding the next pair of a sorted sequence to the dictionary of the ones before it. */
  lemma MapOfSnoc<V>(s: seq<(int, V)>, i: nat)
    requires Sorted(s) && i < |s|
    ensures MapOf(s[..i + 1]) == MapOf(s[..i])[s[i].0 := s[i].1]
  {
    var a := s[..i];
    assert s[..i + 1] == a + [s[i]];
    MapOfConcat(a, [s[i]]);
    assert MapOf([s[i]]) == map[s[i].0 := s[i].1];
    MapOfKeys(a);
    assert s[i].0 !in KeysOf(a);
  }
}
