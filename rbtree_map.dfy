/**
 * The source's RBTree and RBDict classes: a red-black tree held by an object
 * whose operations change it in place.  The nodes, their parent links and the
 * shared sentinel become the value `root` of module RedBlackTree; a node
 * handle is a position (`Zip`) in the current tree, and `None` stands for the
 * sentinel node (and for Python's `None`, which RemoveNode also accepts).
 * Keys are integers ordered by `Cmp`, the default comparator.
 */
module RBTreeMap {
  import opened Wrappers
  import opened OrderedPairs
  import opened RedBlackTree

  /** The exception the dictionary interface raises for a missing key. */
  datatype KeyError = KeyError

  /** In a sorted tree the dictionary maps a node's key to that node's value. */
  lemma NodeLookup<V>(z: Zip<V>)
    requires z.focus.Node? && Sorted(Elems(Root(z)))
    ensures z.focus.key in MapOf(Elems(Root(z))) && MapOf(Elems(Root(z)))[z.focus.key] == z.focus.value
  {
    ElemsIndex(z);
    MapOfAt(Elems(Root(z)), Index(z));
  }

  /** Sorted contents with a node at index i: every earlier key is smaller, every later key larger. */
  lemma SortedIndex<V>(E: seq<(int, V)>, i: nat, j: nat)
    requires Sorted(E) && i < |E| && j < |E|
    ensures i < j <==> E[i].0 < E[j].0
  {
  }

  /**
   * A new red node hung where the search for its key fell off a sorted red-black
   * tree: the tree is still sorted, its dictionary gains the key, and the position
   * meets the insertion fix-up invariant.
   */
  lemma InsertAtLeaf<V>(z: Zip<V>, key: int, value: V)
    requires z.focus.Leaf? && Between(z.path, key) && IsRedBlack(Root(z)) && Sorted(Elems(Root(z)))
    ensures var x := Zip(Node(Red, Leaf, key, value, Leaf), z.path);
            InsertInv(x) && Sorted(Elems(Root(x))) && |Elems(Root(x))| == |Elems(Root(z))| + 1 &&
            key !in MapOf(Elems(Root(z))) && MapOf(Elems(Root(x))) == MapOf(Elems(Root(z)))[key := value]
  {
    var B, A := Before(z.path), After(z.path);
    BetweenLeaf(z, key);
    SortedInsert(B, key, value, A);
    MapOfInsert(B, key, value, A);
    var x := Zip(Node(Red, Leaf, key, value, Leaf), z.path);
    FocusElems(x);
    assert Elems(Root(x)) == B + [(key, value)] + A;
    InsertStart(z.path, key, value);
  }

  /** The loop of FirstNode, NextNode and RemoveNode: follow left children down from `t`. */
  method Leftmost<V>(t: Tree<V>) returns (y: Tree<V>, inner: seq<Frame<V>>)
    requires t.Node?
    ensures y.Node? && y.left.Leaf? && Plug(y, inner) == t && Before(inner) == []
  {
    y, inner := t, [];
    while y.left.Node?
      invariant y.Node? && Plug(y, inner) == t && Before(inner) == []
      decreases y
    {
      var f := Frame(Left, y.color, y.key, y.value, y.right);
      PlugCons(y.left, f, inner);
      assert ([f] + inner)[1..] == inner;
      y, inner := y.left, [f] + inner;
    }
  }

  /** The loop of LastNode and PrevNode: follow right children down from `t`. */
  method Rightmost<V>(t: Tree<V>) returns (y: Tree<V>, inner: seq<Frame<V>>)
    requires t.Node?
    ensures y.Node? && y.right.Leaf? && Plug(y, inner) == t && After(inner) == []
  {
    y, inner := t, [];
    while y.right.Node?
      invariant y.Node? && Plug(y, inner) == t && After(inner) == []
      decreases y
    {
      var f := Frame(Right, y.color, y.key, y.value, y.left);
      PlugCons(y.right, f, inner);
      assert ([f] + inner)[1..] == inner;
      y, inner := y.right, [f] + inner;
    }
  }

  /** The leftmost node below a position comes first among the nodes of that subtree. */
  lemma LeftmostAt<V>(y: Tree<V>, inner: seq<Frame<V>>, path: seq<Frame<V>>)
    requires y.Node? && y.left.Leaf? && Before(inner) == []
    ensures Root(Zip(y, inner + path)) == Plug(Plug(y, inner), path)
    ensures Index(Zip(y, inner + path)) == |Before(path)|
  {
    PlugAppend(y, inner, path);
    BeforeAppend(inner, path);
  }

  /** The rightmost node below a position comes last among the nodes of that subtree. */
  lemma RightmostAt<V>(y: Tree<V>, inner: seq<Frame<V>>, path: seq<Frame<V>>)
    requires y.Node? && y.right.Leaf? && After(inner) == []
    ensures Root(Zip(y, inner + path)) == Plug(Plug(y, inner), path)
    ensures Index(Zip(y, inner + path)) + 1 == |Before(path)| + |Elems(Plug(y, inner))|
  {
    PlugAppend(y, inner, path);
    BeforeAppend(inner, path);
    PlugElems(y, inner);
  }

  /**
   * One turn of the source's removal fix-up loop, at a black position `z` below
   * the root (the branch on which side `z` lies is folded into the case functions).
   */
  method RemovePass<V>(z: Zip<V>) returns (z': Zip<V>)
    requires RemoveInv(z) && z.path != [] && ColorOf(z.focus) == Black
    ensures RemoveInv(z') && Elems(Root(z')) == Elems(Root(z))
    ensures 2 * |z'.path| + (if ColorOf(z'.focus) == Black then 1 else 0) < 2 * |z.path| + 1
  {
    z' := z;
    RemoveSiblingNode(z');
    if ColorOf(z'.path[0].sibling) == Red {
      // sibling red: rotate the parent towards z so that z gets a black sibling
      RemoveRedSiblingKeeps(z');
      z' := RemoveRedSibling(z');
      RemoveSiblingNode(z');
    }
    var w := z'.path[0].sibling;
    if ColorOf(w.left) == Black && ColorOf(w.right) == Black {
      // both nephews black: paint the sibling red and move the deficit up
      RemoveBlackNephewsKeeps(z');
      z' := RemoveBlackNephews(z');
    } else {
      if (z'.path[0].dir == Left && ColorOf(w.right) == Black) || (z'.path[0].dir == Right && ColorOf(w.left) == Black) {
        // far nephew black: rotate the sibling away so that the far nephew is red
        RemoveNearNephewKeeps(z');
        z' := RemoveNearNephew(z');
      }
      // far nephew red: rotate the parent towards z; the deficit is gone
      RemoveFarNephewDone(z');
      z' := RemoveFarNephew(z');
    }
  }

  /**
   * The source's NextNode: the leftmost node of the right subtree if there is
   * one, otherwise the first ancestor whose key is not below the node's, or the
   * sentinel past the root.  That is the in-order successor.
   */
  method NextNode<V>(h: Zip<V>) returns (r: Option<Zip<V>>)
    requires h.focus.Node? && Sorted(Elems(Root(h)))
    ensures Index(h) < |Elems(Root(h))|
    ensures r.None? <==> Index(h) + 1 == |Elems(Root(h))|
    ensures r.Some? ==> r.value.focus.Node? && Root(r.value) == Root(h) && Index(r.value) == Index(h) + 1
    ensures r.None? <==> forall k | k in MapOf(Elems(Root(h))) :: k <= h.focus.key
    ensures r.Some? ==> h.focus.key < r.value.focus.key &&
                        forall k | k in MapOf(Elems(Root(h))) :: k <= h.focus.key || r.value.focus.key <= k
  {
    ElemsIndex(h);
    if h.focus.right.Node? {
      var d := Descend(h.focus, Right, h.path);
      DescendParts(h.focus, Right, h.path);
      var y, inner := Leftmost(h.focus.right);
      LeftmostAt(y, inner, d.path);
      r := Some(Zip(y, inner + d.path));
    } else {
      r := None;
      var cur := h;
      while cur.path != []
        invariant Root(cur) == Root(h) && cur.focus.Node?
        invariant |Before(cur.path)| + |Elems(cur.focus)| == Index(h) + 1
        decreases |cur.path|
      {
        var p := Ascend(cur);
        AscendIndex(cur);
        ElemsIndex(p);
        if Cmp(p.focus.key, h.focus.key) >= 0 {
          r := Some(p);
          break;
        }
        cur := p;
      }
      if r.None? {
        assert Before(cur.path) == [] && Root(cur) == cur.focus;
      }
    }
    SortedNext(Elems(Root(h)), Index(h));
    if r.Some? {
      ElemsIndex(r.value);
      assert r.value.focus.key == Elems(Root(h))[Index(h) + 1].0;
    }
  }

  /** In sorted pairs the entry after position i holds the next larger key, and there is none exactly at the end. */
  lemma SortedNext<V>(E: seq<(int, V)>, i: nat)
    requires Sorted(E) && i < |E|
    ensures (forall k | k in MapOf(E) :: k <= E[i].0) <==> i + 1 == |E|
    ensures i + 1 < |E| ==> E[i].0 < E[i + 1].0 && forall k | k in MapOf(E) :: k <= E[i].0 || E[i + 1].0 <= k
  {
    if i + 1 < |E| {
      SortedIndex(E, i, i + 1);
    }
    FirstAbove(E, i + 1, E[i].0);
  }

  /**
   * The source's PrevNode: the rightmost node of the left subtree if there is
   * one, otherwise the first ancestor whose key is below the node's, or the
   * sentinel past the root.  That is the in-order predecessor.
   */
  method PrevNode<V>(h: Zip<V>) returns (r: Option<Zip<V>>)
    requires h.focus.Node? && Sorted(Elems(Root(h)))
    ensures r.None? <==> Index(h) == 0
    ensures r.Some? ==> r.value.focus.Node? && Root(r.value) == Root(h) && Index(r.value) + 1 == Index(h)
    ensures r.None? <==> forall k | k in MapOf(Elems(Root(h))) :: h.focus.key <= k
    ensures r.Some? ==> r.value.focus.key < h.focus.key &&
                        forall k | k in MapOf(Elems(Root(h))) :: h.focus.key <= k || k <= r.value.focus.key
  {
    ElemsIndex(h);
    if h.focus.left.Node? {
      var d := Descend(h.focus, Left, h.path);
      DescendParts(h.focus, Left, h.path);
      var y, inner := Rightmost(h.focus.left);
      RightmostAt(y, inner, d.path);
      r := Some(Zip(y, inner + d.path));
    } else {
      r := None;
      var cur := h;
      while cur.path != []
        invariant Root(cur) == Root(h) && cur.focus.Node?
        invariant |Before(cur.path)| == Index(h)
        decreases |cur.path|
      {
        var p := Ascend(cur);
        AscendIndex(cur);
        ElemsIndex(p);
        if Cmp(p.focus.key, h.focus.key) < 0 {
          r := Some(p);
          break;
        }
        cur := p;
      }
      if r.None? {
        assert Before(cur.path) == [] && Root(cur) == cur.focus;
      }
    }
    if r.Some? {
      ElemsIndex(r.value);
    }
    SortedPrev(Elems(Root(h)), Index(h));
  }

  /** In sorted pairs the entry before position i holds the next smaller key, and there is none exactly at the start. */
  lemma SortedPrev<V>(E: seq<(int, V)>, i: nat)
    requires Sorted(E) && i < |E|
    ensures (forall k | k in MapOf(E) :: E[i].0 <= k) <==> i == 0
    ensures 0 < i ==> E[i - 1].0 < E[i].0 && forall k | k in MapOf(E) :: E[i].0 <= k || k <= E[i - 1].0
  {
    if 0 < i {
      SortedIndex(E, i - 1, i);
    }
    LastBelow(E, i, E[i].0);
  }

  /** A search for `key` that stops at a node with no left child: no key lies in [key, node key). */
  lemma LeftLeafGap<V>(z: Zip<V>, key: int)
    requires z.focus.Node? && z.focus.left.Leaf? && Sorted(Elems(Root(z))) && Between(z.path, key)
    requires key < z.focus.key
    ensures forall k | k in MapOf(Elems(Root(z))) :: k < key || z.focus.key <= k
  {
    BetweenIndex(z, key);
    ElemsIndex(z);
    assert Index(z) == |Before(z.path)|;
    GapBelow(Elems(Root(z)), Index(z), key);
  }

  /** A search for `key` that stops at a node with no right child: no key lies in (node key, key]. */
  lemma RightLeafGap<V>(z: Zip<V>, key: int)
    requires z.focus.Node? && z.focus.right.Leaf? && Sorted(Elems(Root(z))) && Between(z.path, key)
    requires z.focus.key < key
    ensures forall k | k in MapOf(Elems(Root(z))) :: k <= z.focus.key || key < k
  {
    BetweenIndex(z, key);
    ElemsIndex(z);
    assert |Elems(z.focus)| == |Elems(z.focus.left)| + 1;
    GapAbove(Elems(Root(z)), Index(z), key);
  }

  /** Below a key smaller than entry i, with every earlier key smaller still, no key lies in [key, E[i]). */
  lemma GapBelow<V>(E: seq<(int, V)>, i: nat, key: int)
    requires Sorted(E) && i < |E| && key < E[i].0
    requires forall j | 0 <= j < i :: E[j].0 < key
    ensures forall k | k in MapOf(E) :: k < key || E[i].0 <= k
  {
    MapOfKeys(E);
    forall k | k in MapOf(E)
      ensures k < key || E[i].0 <= k
    {
      var j :| 0 <= j < |E| && E[j].0 == k;
      if i < j {
        SortedIndex(E, i, j);
      }
    }
  }

  /** Above a key larger than entry i, with every later key larger still, no key lies in (E[i], key]. */
  lemma GapAbove<V>(E: seq<(int, V)>, i: nat, key: int)
    requires Sorted(E) && i < |E| && E[i].0 < key
    requires forall j | i < j < |E| :: E[j].0 > key
    ensures forall k | k in MapOf(E) :: k <= E[i].0 || key < k
  {
    MapOfKeys(E);
    forall k | k in MapOf(E)
      ensures k <= E[i].0 || key < k
    {
      var j :| 0 <= j < |E| && E[j].0 == k;
      if j < i {
        SortedIndex(E, j, i);
      }
    }
  }

  /**
   * The descent shared by the source's NextNodeByKey and PrevNodeByKey: from a
   * non-empty root, step towards `key` until a node holds it or the next step
   * would reach the sentinel.
   */
  method SearchStop<V>(t: Tree<V>, key: int) returns (cur: Zip<V>)
    requires t.Node? && Sorted(Elems(t))
    ensures cur.focus.Node? && Root(cur) == t && Between(cur.path, key)
    ensures key < cur.focus.key ==> cur.focus.left.Leaf?
    ensures cur.focus.key < key ==> cur.focus.right.Leaf?
  {
    cur := Zip(t, []);
    while true
      invariant Root(cur) == t && cur.focus.Node? && Between(cur.path, key)
      decreases cur.focus
    {
      var rc := Cmp(key, cur.focus.key);
      if rc == 0 {
        return;
      }
      DescendBetween(cur, key);
      if rc < 0 {
        if cur.focus.left.Leaf? {
          return;
        }
        cur := Descend(cur.focus, Left, cur.path);
      } else {
        if cur.focus.right.Leaf? {
          return;
        }
        cur := Descend(cur.focus, Right, cur.path);
      }
    }
  }

  /**
   * The source's NextNodeByKey: the node with the smallest key above `key`
   * (which need not be in the tree `t`), or the sentinel when there is none.
   */
  method NextNodeByKey<V>(t: Tree<V>, key: int) returns (r: Option<Zip<V>>)
    requires Sorted(Elems(t))
    ensures r.None? <==> forall k | k in MapOf(Elems(t)) :: k <= key
    ensures r.Some? ==> r.value.focus.Node? && Root(r.value) == t && key < r.value.focus.key &&
                        forall k | k in MapOf(Elems(t)) :: k <= key || r.value.focus.key <= k
  {
    if t.Leaf? {
      assert Elems(t) == [];
      return None;
    }
    var cur := SearchStop(t, key);
    var rc := Cmp(key, cur.focus.key);
    if rc == 0 {
      r := NextNode(cur);
    } else if rc < 0 {
      // the search would go left into the sentinel: this node comes next
      LeftLeafGap(cur, key);
      NodeLookup(cur);
      r := Some(cur);
    } else {
      // the search would go right into the sentinel: the node after this one
      RightLeafGap(cur, key);
      r := NextNode(cur);
      if r.Some? {
        NodeLookup(r.value);
      }
    }
  }

  /**
   * The source's PrevNodeByKey: the node with the largest key below `key`
   * (which need not be in the tree `t`), or the sentinel when there is none.
   */
  method PrevNodeByKey<V>(t: Tree<V>, key: int) returns (r: Option<Zip<V>>)
    requires Sorted(Elems(t))
    ensures r.None? <==> forall k | k in MapOf(Elems(t)) :: key <= k
    ensures r.Some? ==> r.value.focus.Node? && Root(r.value) == t && r.value.focus.key < key &&
                        forall k | k in MapOf(Elems(t)) :: key <= k || k <= r.value.focus.key
  {
    if t.Leaf? {
      assert Elems(t) == [];
      return None;
    }
    var cur := SearchStop(t, key);
    var rc := Cmp(key, cur.focus.key);
    if rc == 0 {
      r := PrevNode(cur);
    } else if rc < 0 {
      // the search would go left into the sentinel: the node before this one
      LeftLeafGap(cur, key);
      r := PrevNode(cur);
      if r.Some? {
        NodeLookup(r.value);
      }
    } else {
      // the search would go right into the sentinel: this node comes before
      RightLeafGap(cur, key);
      NodeLookup(cur);
      r := Some(cur);
    }
  }

  /**
   * How many entries a traversal stack still owes: each stacked node (whose left
   * subtree is being walked) and its right subtree.
   */
  ghost function Pending<V>(s: seq<Zip<V>>): nat
  {
    if s == [] then 0
    else
      var t := s[|s| - 1].focus;
      Pending(s[..|s| - 1]) + (if t.Node? then 1 + |Elems(t.right)| else 0)
  }

  /**
   * A traversal stack over tree `root` with `total` entries: every stacked node is
   * a node of the tree, and everything from it on is still owed by the stack up to it.
   */
  ghost predicate StackAt<V>(s: seq<Zip<V>>, root: Tree<V>, total: nat)
  {
    s != [] ==>
      var z := s[|s| - 1];
      z.focus.Node? && Root(z) == root && Index(z) + Pending(s) == total && StackAt(s[..|s| - 1], root, total)
  }

  /** A dictionary with a key has some key to pick. */
  lemma SomeKey<V>(m: map<int, V>)
    requires m != map[]
    ensures exists k :: k in m
  {
    if forall k :: k !in m {
      assert false;
    }
  }

  /** Setting one pending pair and dropping it from the pending pairs keeps the merge. */
  lemma MergeStep<V>(c: map<int, V>, rest: map<int, V>, k: int)
    requires k in rest
    ensures c[k := rest[k]] + (rest - {k}) == c + rest
  {
  }

  class RBTree<V> {
    var root: Tree<V>
    /** The source's `_count`. */
    var count: nat

    /** A red-black tree whose in-order keys increase and whose count is its number of nodes. */
    ghost predicate Valid()
      reads this
    {
      IsRedBlack(root) && Sorted(Elems(root)) && count == |Elems(root)|
    }

    /** The dictionary the tree represents. */
    ghost function Contents(): map<int, V>
      reads this
    {
      MapOf(Elems(root))
    }

    /** A handle on a (non-sentinel) node of this tree. */
    ghost predicate IsNodeOf(h: Zip<V>)
      reads this
    {
      h.focus.Node? && Root(h) == root
    }

    /** The source's `__init__`/`_initialize`: the root is the sentinel and the count 0. */
    constructor ()
      ensures Valid() && Elems(root) == [] && Contents() == map[]
    {
      root := Leaf;
      count := 0;
    }

    /** The source's `__len__`. */
    function Len(): (n: nat)
      reads this
      requires Valid()
      ensures n == |Elems(root)| && n == |Contents()|
    {
      MapOfKeys(Elems(root));
      SortedKeysCount(Elems(root));
      count
    }

    /** The source's `__nonzero__`. */
    function NonEmpty(): (b: bool)
      reads this
      requires Valid()
      ensures b <==> Contents() != map[]
    {
      MapOfKeys(Elems(root));
      if count != 0 then
        assert Elems(root)[0].0 in Contents();
        true
      else false
    }
 
    /** The source's FindNode: the node holding `key`, or the sentinel when no key compares equal. */
    method FindNode(key: int) returns (r: Option<Zip<V>>)
      requires Valid()
      ensures r.None? <==> key !in Contents()
      ensures r.Some? ==> IsNodeOf(r.value) && r.value.focus.key == key && Contents()[key] == r.value.focus.value
    {
      var cur := Zip(root, []);
      while cur.focus.Node?
        invariant Root(cur) == root && Between(cur.path, key)
        decreases cur.focus
      {
        var rc := Cmp(key, cur.focus.key);
        if rc == 0 {
          NodeLookup(cur);
          return Some(cur);
        }
        DescendBetween(cur, key);
        if rc < 0 {
          cur := Descend(cur.focus, Left, cur.path);
        } else {
          cur := Descend(cur.focus, Right, cur.path);
        }
      }
      BetweenLeaf(cur, key);
      return None;
    }

    /** The source's `__contains__` and RBDict's `has_key`. */
    method Contains(key: int) returns (b: bool)
      requires Valid()
      ensures b <==> key in Contents()
    {
      var n := FindNode(key);
      b := n.Some?;
    }

    /** The source's `node._value = v` (Node.set_value): a node's value is replaced in place. */
    method SetValue(h: Zip<V>, v: V)
      requires Valid() && IsNodeOf(h)
      modifies this
      ensures Valid() && count == old(count)
      ensures Index(h) < |old(Elems(root))|
      ensures root == Plug(h.focus.(value := v), h.path)
      ensures Elems(root) == old(Elems(root))[Index(h) := (h.focus.key, v)]
      ensures Contents() == old(Contents())[h.focus.key := v]
    {
      ElemsIndex(h);
      RelabelElems(h, h.focus.key, v);
      RelabelRedBlack(h, h.focus.key, v);
      SortedSetValue(Elems(root), Index(h), v);
      MapOfUpdate(Elems(root), Index(h), v);
      root := Plug(h.focus.(value := v), h.path);
    }

    /**
     * The source's _RecolorAndRebalanceAfterInsert: starting from the freshly
     * inserted red node, recolour and rotate until no red node has a red parent,
     * then paint the root black.
     */
    method RecolorAndRebalanceAfterInsert(x: Zip<V>)
      requires InsertInv(x) && Root(x) == root
      modifies this
      ensures IsRedBlack(root) && Elems(root) == old(Elems(root)) && count == old(count)
    {
      var z := x;
      while z.path != [] && z.path[0].color == Red
        invariant InsertInv(z) && Root(z) == root && Elems(root) == old(Elems(root)) && count == old(count)
        decreases |z.path|
      {
        InsertGrandparent(z);
        if ColorOf(z.path[1].sibling) == Red {
          // uncle red: recolour and continue at the grandparent
          InsertRecolorKeeps(z);
          z := InsertRecolor(z);
        } else {
          if z.path[0].dir != z.path[1].dir {
            // inner grandchild: rotate the parent to reduce to the outer case
            InsertRotateInnerKeeps(z);
            z := InsertRotateInner(z);
            root := Root(z);
          }
          // outer grandchild: recolour and rotate the grandparent
          InsertRotateOuterKeeps(z);
          z := InsertRotateOuter(z);
        }
        root := Root(z);
      }
      InsertDone(z);
      root := Blacken(Root(z));
    }

    /**
     * The source's Insert: overwrites the value of an equal key, otherwise hangs a
     * new red node where the search fell off the tree and rebalances.  Returns the
     * node holding the key.
     */
    method Insert(key: int, value: V) returns (n: Zip<V>)
      requires Valid()
      modifies this
      ensures Valid()
      ensures Contents() == old(Contents())[key := value]
      ensures count == old(count) + (if key in old(Contents()) then 0 else 1)
      ensures IsNodeOf(n) && n.focus.key == key && n.focus.value == value
    {
      var cur := Zip(root, []);
      while cur.focus.Node?
        invariant Root(cur) == root && Between(cur.path, key)
        invariant root == old(root) && count == old(count)
        decreases cur.focus
      {
        var rc := Cmp(key, cur.focus.key);
        if rc == 0 {
          NodeLookup(cur);
          SetValue(cur, value);
          return Zip(cur.focus.(value := value), cur.path);
        }
        DescendBetween(cur, key);
        if rc < 0 {
          cur := Descend(cur.focus, Left, cur.path);
        } else {
          cur := Descend(cur.focus, Right, cur.path);
        }
      }
      var x := Zip(Node(Red, Leaf, key, value, Leaf), cur.path);
      InsertAtLeaf(cur, key, value);
      count := count + 1;
      root := Root(x);
      RecolorAndRebalanceAfterInsert(x);
      var found := FindNode(key);
      n := found.value;
    }
 
    /**
     * The source's _RecolorAndRebalanceAfterRemove: `x` took the place of a black
     * node, so every path through it lacks one black node; push the deficit up or
     * end it by rotations (one RemovePass per turn of the loop), then paint the
     * final position black.
     */
    method RecolorAndRebalanceAfterRemove(x: Zip<V>)
      requires RemoveInv(x) && Root(x) == root
      modifies this
      ensures IsRedBlack(root) && Elems(root) == old(Elems(root)) && count == old(count)
    {
      var z := x;
      while z.path != [] && ColorOf(z.focus) == Black
        invariant RemoveInv(z) && Root(z) == root && Elems(root) == old(Elems(root)) && count == old(count)
        decreases 2 * |z.path| + (if ColorOf(z.focus) == Black then 1 else 0)
      {
        z := RemovePass(z);
        root := Root(z);
      }
      RemoveDone(z);
      PlugSameElems(Blacken(z.focus), z.focus, z.path);
      root := Plug(Blacken(z.focus), z.path);
    }

    /**
     * The source's RemoveNode: a node with a sentinel child is spliced out
     * directly; a node with two children takes the key and value of its in-order
     * successor, which is spliced out instead.  If the spliced node was black the
     * tree is rebalanced.  `None` (the sentinel, or Python's None) changes nothing.
     */
    /** The tail of RemoveNode: `y` has at most one child, which takes its place. */
    method SpliceOut(y: Zip<V>)
      requires IsRedBlack(root) && Root(y) == root
      requires y.focus.Node? && (y.focus.left.Leaf? || y.focus.right.Leaf?)
      modifies this
      ensures IsRedBlack(root) && count == old(count)
      ensures Index(y) < |old(Elems(root))|
      ensures Elems(root) == old(Elems(root))[..Index(y)] + old(Elems(root))[Index(y) + 1..]
    {
      var x := if y.focus.left.Node? then y.focus.left else y.focus.right;
      SpliceElems(y);
      SpliceKeeps(y.focus, y.path);
      root := Plug(x, y.path);
      if y.focus.color == Black {
        RecolorAndRebalanceAfterRemove(Zip(x, y.path));
      }
    }

    method RemoveNode(h: Option<Zip<V>>)
      requires Valid()
      requires h.Some? ==> Root(h.value) == root
      modifies this
      ensures Valid()
      ensures h.None? || h.value.focus.Leaf? ==> root == old(root) && count == old(count)
      ensures h.Some? && h.value.focus.Node? ==>
                Index(h.value) < |old(Elems(root))| &&
                Elems(root) == old(Elems(root))[..Index(h.value)] + old(Elems(root))[Index(h.value) + 1..] &&
                Contents() == old(Contents()) - {h.value.focus.key} &&
                count == old(count) - 1
    {
      if h.None? || h.value.focus.Leaf? {
        return;
      }
      var z := h.value;
      ghost var E0, i := Elems(root), Index(z);
      ElemsIndex(z);
      SortedRemove(E0, i);
      MapOfRemove(E0, i);
      if z.focus.left.Leaf? || z.focus.right.Leaf? {
        SpliceOut(z);
      } else {
        SwapAndSplice(z);
      }
      count := count - 1;
    }

    /** RemoveNode on a node with two children: its successor's entry moves up and the successor is spliced out. */
    method SwapAndSplice(z: Zip<V>)
      requires IsRedBlack(root) && Root(z) == root
      requires z.focus.Node? && z.focus.left.Node? && z.focus.right.Node?
      modifies this
      ensures IsRedBlack(root) && count == old(count)
      ensures Index(z) < |old(Elems(root))|
      ensures Elems(root) == old(Elems(root))[..Index(z)] + old(Elems(root))[Index(z) + 1..]
    {
      ghost var E0, i := Elems(root), Index(z);
      // the successor: the leftmost node of z's right subtree
      var t, inner := Leftmost(z.focus.right);
      SuccessorSwap(z, inner, t);
      RelabelElems(z, t.key, t.value);
      RelabelRedBlack(z, t.key, t.value);
      SwapThenSplice(E0, i);
      // z takes y's key and value, then y is spliced out
      root := Plug(z.focus.(key := t.key, value := t.value), z.path);
      SpliceOut(Zip(t, inner + [Frame(Right, z.focus.color, t.key, t.value, z.focus.left)] + z.path));
    }

    /** The source's FirstNode: the leftmost node, or the sentinel when the tree is empty. */
    method FirstNode() returns (r: Option<Zip<V>>)
      requires Valid()
      ensures r.None? <==> Contents() == map[]
      ensures r.None? <==> Elems(root) == []
      ensures r.Some? ==> IsNodeOf(r.value) && Index(r.value) == 0
      ensures r.Some? ==> r.value.focus.key in Contents() && forall k | k in Contents() :: r.value.focus.key <= k
    {
      if root.Leaf? {
        assert Elems(root) == [];
        return None;
      }
      var y, inner := Leftmost(root);
      LeftmostAt(y, inner, []);
      assert inner + [] == inner;
      r := Some(Zip(y, inner));
      ElemsIndex(r.value);
      LastBelow(Elems(root), 0, y.key);
      NodeLookup(r.value);
    }

    /** The source's LastNode: the rightmost node, or the sentinel when the tree is empty. */
    method LastNode() returns (r: Option<Zip<V>>)
      requires Valid()
      ensures r.None? <==> Contents() == map[]
      ensures r.Some? ==> IsNodeOf(r.value) && Index(r.value) + 1 == |Elems(root)|
      ensures r.Some? ==> r.value.focus.key in Contents() && forall k | k in Contents() :: k <= r.value.focus.key
    {
      if root.Leaf? {
        assert Elems(root) == [];
        return None;
      }
      var y, inner := Rightmost(root);
      RightmostAt(y, inner, []);
      assert inner + [] == inner;
      r := Some(Zip(y, inner));
      ElemsIndex(r.value);
      FirstAbove(Elems(root), |Elems(root)|, y.key);
      NodeLookup(r.value);
    }



    /**
     * The source's Traverse with `result.append` as the visitor (NodesByTraversal):
     * an in-order walk with an explicit stack of the nodes whose left subtree is
     * being walked.  The source's `None` at the bottom of the stack is the empty
     * stack here.  Visits every node once, in order.
     */
    method NodesByTraversal() returns (r: seq<Zip<V>>)
      requires Valid()
      ensures |r| == |Elems(root)|
      ensures forall i | 0 <= i < |r| :: IsNodeOf(r[i]) && Index(r[i]) == i
    {
      r := [];
      if root.Leaf? {
        assert Elems(root) == [];
        return;
      }
      var s: seq<Zip<V>> := [];
      var cur := Zip(root, []);
      while true
        invariant IsNodeOf(cur) && |Before(cur.path)| == |r|
        invariant |r| + |Elems(cur.focus)| + Pending(s) == |Elems(root)|
        invariant StackAt(s, root, |Elems(root)|)
        invariant forall i | 0 <= i < |r| :: IsNodeOf(r[i]) && Index(r[i]) == i
        decreases |Elems(root)| - |r|, |Elems(cur.focus)|
      {
        if cur.focus.left.Node? {
          assert (s + [cur])[..|s|] == s;
          s := s + [cur];
          cur := Descend(cur.focus, Left, cur.path);
        } else {
          var done;
          done, cur, s, r := Climb(cur, s, r + [cur]);
          if done {
            return;
          }
          cur := Descend(cur.focus, Right, cur.path);
        }
      }
    }

    /**
     * The traversal's climb: after visiting `cur0`, pops and visits stacked nodes
     * until one has a right subtree to descend into, or the stack is empty.
     */
    method Climb(cur0: Zip<V>, s0: seq<Zip<V>>, r0: seq<Zip<V>>) returns (done: bool, cur: Zip<V>, s: seq<Zip<V>>, r: seq<Zip<V>>)
      requires IsNodeOf(cur0) && Index(cur0) + 1 == |r0|
      requires |r0| + |Elems(cur0.focus.right)| + Pending(s0) == |Elems(root)|
      requires StackAt(s0, root, |Elems(root)|)
      requires forall i | 0 <= i < |r0| :: IsNodeOf(r0[i]) && Index(r0[i]) == i
      ensures |r0| <= |r| && forall i | 0 <= i < |r| :: IsNodeOf(r[i]) && Index(r[i]) == i
      ensures done ==> |r| == |Elems(root)|
      ensures !done ==> IsNodeOf(cur) && Index(cur) + 1 == |r| && cur.focus.right.Node?
      ensures !done ==> |r| + |Elems(cur.focus.right)| + Pending(s) == |Elems(root)| && StackAt(s, root, |Elems(root)|)
    {
      cur, s, r := cur0, s0, r0;
      while cur.focus.right.Leaf?
        invariant IsNodeOf(cur) && Index(cur) + 1 == |r| && |r0| <= |r|
        invariant |r| + |Elems(cur.focus.right)| + Pending(s) == |Elems(root)|
        invariant StackAt(s, root, |Elems(root)|)
        invariant forall i | 0 <= i < |r| :: IsNodeOf(r[i]) && Index(r[i]) == i
        decreases |s|
      {
        if s == [] {
          return true, cur, s, r;
        }
        cur, s := s[|s| - 1], s[..|s| - 1];
        r := r + [cur];
      }
      done := false;
    }

    /** The source's Nodes: FirstNode, then NextNode until the sentinel. */
    method Nodes() returns (r: seq<Zip<V>>)
      requires Valid()
      ensures |r| == |Elems(root)|
      ensures forall i | 0 <= i < |r| ::
                IsNodeOf(r[i]) && Index(r[i]) == i && (r[i].focus.key, r[i].focus.value) == Elems(root)[i]
    {
      var cur := FirstNode();
      r := [];
      while cur.Some?
        invariant cur.Some? ==> IsNodeOf(cur.value) && Index(cur.value) == |r|
        invariant cur.None? ==> |r| == |Elems(root)|
        invariant |r| <= |Elems(root)|
        invariant forall i | 0 <= i < |r| :: IsNodeOf(r[i]) && Index(r[i]) == i
        decreases |Elems(root)| - |r|
      {
        ElemsIndex(cur.value);
        r := r + [cur.value];
        cur := NextNode(cur.value);
      }
      forall i | 0 <= i < |r|
        ensures (r[i].focus.key, r[i].focus.value) == Elems(root)[i]
      {
        ElemsIndex(r[i]);
      }
    }

    // RBDict: the dictionary interface over the same tree.

    /** RBDict's `__init__`: a tree holding the given dictionary, inserted pair by pair. */
    constructor FromMap(d: map<int, V>)
      ensures Valid() && Contents() == d
    {
      root := Leaf;
      count := 0;
      new;
      var rest := d;
      while rest != map[]
        invariant Valid() && Contents() + rest == d
        decreases |rest|
      {
        SomeKey(rest);
        var k :| k in rest;
        ghost var before := Contents();
        var n := Insert(k, rest[k]);
        MergeStep(before, rest, k);
        rest := rest - {k};
      }
    }

    /** RBDict's `__getitem__`: the value under `key`, or KeyError. */
    method GetItem(key: int) returns (r: Result<V, KeyError>)
      requires Valid()
      ensures r.Ok? <==> key in Contents()
      ensures r.Ok? ==> r.value == Contents()[key]
    {
      var n := FindNode(key);
      if n.Some? {
        return Ok(n.value.focus.value);
      }
      return Err(KeyError);
    }

    /** RBDict's `__setitem__`: overwrite the value of a present key in place, otherwise insert. */
    method SetItem(key: int, value: V)
      requires Valid()
      modifies this
      ensures Valid() && Contents() == old(Contents())[key := value]
      ensures count == old(count) + (if key in old(Contents()) then 0 else 1)
    {
      var n := FindNode(key);
      if n.Some? {
        SetValue(n.value, value);
      } else {
        var m := Insert(key, value);
      }
    }

    /** RBDict's `__delitem__`: remove the node of `key`, or KeyError. */
    method DelItem(key: int) returns (r: Result<(), KeyError>)
      requires Valid()
      modifies this
      ensures Valid()
      ensures r.Ok? <==> key in old(Contents())
      ensures Contents() == old(Contents()) - {key}
      ensures count == old(count) - (if key in old(Contents()) then 1 else 0)
    {
      var n := FindNode(key);
      if n.Some? {
        RemoveNode(n);
        return Ok(());
      }
      assert Contents() - {key} == Contents();
      return Err(KeyError);
    }

    /** RBDict's `get`: the value under `key`, or `default`. */
    method Get(key: int, default: V) returns (v: V)
      requires Valid()
      ensures v == if key in Contents() then Contents()[key] else default
    {
      var n := FindNode(key);
      if n.Some? {
        return n.value.focus.value;
      }
      return default;
    }

    /** RBDict's `keys`: the keys in increasing order. */
    method Keys() returns (ks: seq<int>)
      requires Valid()
      ensures |ks| == |Contents()|
      ensures forall i, j | 0 <= i < j < |ks| :: ks[i] < ks[j]
      ensures forall k :: k in ks <==> k in Contents()
    {
      var nodes := Nodes();
      ks := seq(|nodes|, i requires 0 <= i < |nodes| && nodes[i].focus.Node? => nodes[i].focus.key);
      SortedKeyList(Elems(root), ks);
    }

    /** RBDict's `values`: the values in the order of their keys. */
    method Values() returns (vs: seq<V>)
      requires Valid()
      ensures |vs| == |Contents()| == |Elems(root)|
      ensures forall i | 0 <= i < |vs| :: Elems(root)[i].0 in Contents() && vs[i] == Contents()[Elems(root)[i].0]
    {
      var nodes := Nodes();
      vs := seq(|nodes|, i requires 0 <= i < |nodes| && nodes[i].focus.Node? => nodes[i].focus.value);
      MapOfKeys(Elems(root));
      SortedKeysCount(Elems(root));
      forall i | 0 <= i < |vs|
        ensures Elems(root)[i].0 in Contents() && vs[i] == Contents()[Elems(root)[i].0]
      {
        MapOfAt(Elems(root), i);
      }
    }

    /** RBDict's `items`: the (key, value) pairs in key order. */
    method Items() returns (its: seq<(int, V)>)
      requires Valid()
      ensures its == Elems(root)
      ensures Sorted(its) && MapOf(its) == Contents() && |its| == |Contents()|
    {
      var nodes := Nodes();
      its := seq(|nodes|, i requires 0 <= i < |nodes| && nodes[i].focus.Node? => (nodes[i].focus.key, nodes[i].focus.value));
      MapOfKeys(Elems(root));
      SortedKeysCount(Elems(root));
    }

    /** RBDict's `clear`: back to the empty tree. */
    method Clear()
      modifies this
      ensures Valid() && Contents() == map[] && count == 0
    {
      root := Leaf;
      count := 0;
    }

    /** RBDict's `copy`: a new dictionary filled from this one's items. */
    method Copy() returns (c: RBTree<V>)
      requires Valid()
      ensures fresh(c) && c.Valid() && c.Contents() == Contents()
    {
      var its := Items();
      c := new RBTree();
      var i := 0;
      while i < |its|
        invariant 0 <= i <= |its| && fresh(c)
        invariant c.Valid() && c.Contents() == MapOf(its[..i])
      {
        MapOfSnoc(its, i);
        c.SetItem(its[i].0, its[i].1);
        i := i + 1;
      }
      assert its[..|its|] == its;
    }

    /** RBDict's `update`: every pair of `other` is set here, overwriting old values. */
    method Update(other: map<int, V>)
      requires Valid()
      modifies this
      ensures Valid() && Contents() == old(Contents()) + other
    {
      var rest := other;
      while rest != map[]
        invariant Valid() && Contents() + rest == old(Contents()) + other
        decreases |rest|
      {
        SomeKey(rest);
        var k :| k in rest;
        ghost var before := Contents();
        SetItem(k, rest[k]);
        MergeStep(before, rest, k);
        rest := rest - {k};
      }
    }

    /** RBDict's `setdefault`: the present value, or `value` after storing it. */
    method SetDefault(key: int, value: V) returns (v: V)
      requires Valid()
      modifies this
      ensures Valid()
      ensures key in old(Contents()) ==> v == old(Contents())[key] && Contents() == old(Contents())
      ensures key !in old(Contents()) ==> v == value && Contents() == old(Contents())[key := value]
    {
      var present := Contains(key);
      if present {
        var r := GetItem(key);
        return r.value;
      }
      SetItem(key, value);
      return value;
    }
  }
}
