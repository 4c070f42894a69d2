/**
 * The red-black tree of the Rural Planning judge, as values.
 *
 * A subtree is a `Tree`; `Leaf` stands for the shared black sentinel node.
 * The source's nodes carry parent links; here a position in the tree is a
 * zipper `Zip(focus, path)` whose `path[0]` describes the parent of `focus`,
 * `path[1]` the grandparent, and so on up to the root.  Walking to a parent
 * is popping a frame, and the whole tree is recovered with `Plug`.
 */
module RedBlackTree {
  import opened Wrappers
  import opened OrderedPairs

  datatype Color = Red | Black

  datatype Tree<V> = Leaf | Node(color: Color, left: Tree<V>, key: int, value: V, right: Tree<V>)

  /** The side of an ancestor on which the path continues downward. */
  datatype Dir = Left | Right

  /** One ancestor of a position: its colour, key and value, and the subtree on its other side. */
  datatype Frame<V> = Frame(dir: Dir, color: Color, key: int, value: V, sibling: Tree<V>)

  /** A position in a tree: the subtree at that position and the ancestors above it, nearest first. */
  datatype Zip<V> = Zip(focus: Tree<V>, path: seq<Frame<V>>)

  /** Python's three-way `cmp` on keys, the tree's default comparator. */
  function Cmp(a: int, b: int): (r: int)
    ensures r < 0 <==> a < b
    ensures r == 0 <==> a == b
    ensures r > 0 <==> a > b
  {
    if a < b then -1 else if a == b then 0 else 1
  }

  /** The sentinel is black. */
  function ColorOf<V>(t: Tree<V>): Color
  {
    if t.Leaf? then Black else t.color
  }

  /** Paints the root of a subtree black; the sentinel stays as it is. */
  function Blacken<V>(t: Tree<V>): (r: Tree<V>)
    ensures ColorOf(r) == Black && Elems(r) == Elems(t)
  {
    if t.Leaf? then t else t.(color := Black)
  }

  // ---------------------------------------------------------------------
  // Contents

  /** The in-order sequence of (key, value) pairs. */
  function Elems<V>(t: Tree<V>): seq<(int, V)>
  {
    match t
    case Leaf => []
    case Node(_, l, k, v, r) => Elems(l) + [(k, v)] + Elems(r)
  }

  // ---------------------------------------------------------------------
  // The red-black rules

  /** Number of black nodes on every path down to a sentinel, read along the left spine. */
  function BH<V>(t: Tree<V>): nat
  {
    match t
    case Leaf => 0
    case Node(c, l, _, _, _) => BH(l) + (if c == Black then 1 else 0)
  }

  /** Every node's two subtrees have the same black-height. */
  predicate Balanced<V>(t: Tree<V>)
  {
    match t
    case Leaf => true
    case Node(_, l, _, _, r) => Balanced(l) && Balanced(r) && BH(l) == BH(r)
  }

  /** No red node has a red child. */
  predicate NoRedRed<V>(t: Tree<V>)
  {
    match t
    case Leaf => true
    case Node(c, l, _, _, r) =>
      NoRedRed(l) && NoRedRed(r) && (c == Red ==> ColorOf(l) == Black && ColorOf(r) == Black)
  }

  predicate IsRedBlack<V>(t: Tree<V>)
  {
    ColorOf(t) == Black && Balanced(t) && NoRedRed(t)
  }

  // ---------------------------------------------------------------------
  // Rotations

  /**
   * The source's _RotateLeft: the right child Y of X takes X's place, X becomes
   * Y's left child and Y's old left subtree becomes X's right subtree.  Each
   * node keeps its colour.
   */
  function RotateLeft<V>(t: Tree<V>): (r: Tree<V>)
    requires t.Node? && t.right.Node?
    ensures Elems(r) == Elems(t)
    ensures r.Node? && r.left.Node?
  {
    var y := t.right;
    Node(y.color, Node(t.color, t.left, t.key, t.value, y.left), y.key, y.value, y.right)
  }

  /** The source's _RotateRight, the mirror image of RotateLeft. */
  function RotateRight<V>(t: Tree<V>): (r: Tree<V>)
    requires t.Node? && t.left.Node?
    ensures Elems(r) == Elems(t)
    ensures r.Node? && r.right.Node?
  {
    var y := t.left;
    Node(y.color, y.left, y.key, y.value, Node(t.color, y.right, t.key, t.value, t.right))
  }

  /** Moving the parentheses of a rotation: the in-order sequence is the same. */
  lemma Regroup<T>(a: seq<T>, x: T, b: seq<T>, y: T, c: seq<T>)
    ensures (a + [x] + b) + [y] + c == a + [x] + (b + [y] + c)
  {
  }

  lemma RotationsInverse<V>(t: Tree<V>)
    requires t.Node? && t.right.Node?
    ensures RotateRight(RotateLeft(t)) == t
  {
  }

  // ---------------------------------------------------------------------
  // Zippers

  /** Re-attaches a subtree below the ancestor `f`. */
  function Up<V>(t: Tree<V>, f: Frame<V>): Tree<V>
  {
    if f.dir == Left then Node(f.color, t, f.key, f.value, f.sibling)
    else Node(f.color, f.sibling, f.key, f.value, t)
  }

  /** The whole tree a position lies in. */
  function Plug<V>(t: Tree<V>, path: seq<Frame<V>>): Tree<V>
    decreases |path|
  {
    if path == [] then t else Plug(Up(t, path[0]), path[1..])
  }

  function Root<V>(z: Zip<V>): Tree<V>
  {
    Plug(z.focus, z.path)
  }

  /** Moves from a node to its child on side `d`. */
  function Descend<V>(t: Tree<V>, d: Dir, path: seq<Frame<V>>): (z: Zip<V>)
    requires t.Node?
    ensures Root(z) == Plug(t, path)
    ensures |z.path| == |path| + 1 && z.path[1..] == path
  {
    var z := if d == Left then Zip(t.left, [Frame(Left, t.color, t.key, t.value, t.right)] + path)
             else Zip(t.right, [Frame(Right, t.color, t.key, t.value, t.left)] + path);
    assert z.path[1..] == path;
    z
  }

  /** The pairs that come before the focus in the in-order sequence. */
  function Before<V>(path: seq<Frame<V>>): seq<(int, V)>
    decreases |path|
  {
    if path == [] then []
    else Before(path[1..]) + (if path[0].dir == Right then Elems(path[0].sibling) + [(path[0].key, path[0].value)] else [])
  }

  /** The pairs that come after the focus in the in-order sequence. */
  function After<V>(path: seq<Frame<V>>): seq<(int, V)>
    decreases |path|
  {
    if path == [] then []
    else (if path[0].dir == Left then [(path[0].key, path[0].value)] + Elems(path[0].sibling) else []) + After(path[1..])
  }

  /** In-order position of the node at a position. */
  function Index<V>(z: Zip<V>): nat
    requires z.focus.Node?
  {
    |Before(z.path)| + |Elems(z.focus.left)|
  }

  lemma PlugCons<V>(t: Tree<V>, f: Frame<V>, rest: seq<Frame<V>>)
    ensures Plug(t, [f] + rest) == Plug(Up(t, f), rest)
  {
    assert ([f] + rest)[1..] == rest;
  }

  lemma {:induction false} PlugAppend<V>(t: Tree<V>, a: seq<Frame<V>>, b: seq<Frame<V>>)
    ensures Plug(t, a + b) == Plug(Plug(t, a), b)
    decreases |a|
  {
    if a == [] {
      assert a + b == b;
    } else {
      assert (a + b)[1..] == a[1..] + b;
      PlugAppend(Up(t, a[0]), a[1..], b);
    }
  }

  lemma {:induction false} PlugElems<V>(t: Tree<V>, path: seq<Frame<V>>)
    ensures Elems(Plug(t, path)) == Before(path) + Elems(t) + After(path)
    decreases |path|
  {
    if path != [] {
      PlugElems(Up(t, path[0]), path[1..]);
    }
  }

  /** Replacing the focus by a subtree with the same contents keeps the contents of the whole tree. */
  lemma PlugSameElems<V>(a: Tree<V>, b: Tree<V>, path: seq<Frame<V>>)
    requires Elems(a) == Elems(b)
    ensures Elems(Plug(a, path)) == Elems(Plug(b, path))
  {
    PlugElems(a, path);
    PlugElems(b, path);
  }

  lemma {:induction false} BeforeAppend<V>(a: seq<Frame<V>>, b: seq<Frame<V>>)
    ensures Before(a + b) == Before(b) + Before(a)
    decreases |a|
  {
    if a == [] {
      assert a + b == b;
    } else {
      var f := a[0];
      var x := if f.dir == Right then Elems(f.sibling) + [(f.key, f.value)] else [];
      assert (a + b)[0] == f && (a + b)[1..] == a[1..] + b;
      assert Before(a + b) == Before(a[1..] + b) + x;
      BeforeAppend(a[1..], b);
      assert Before(a) == Before(a[1..]) + x;
    }
  }

  lemma {:induction false} AfterAppend<V>(a: seq<Frame<V>>, b: seq<Frame<V>>)
    ensures After(a + b) == After(a) + After(b)
    decreases |a|
  {
    if a == [] {
      assert a + b == b;
    } else {
      var f := a[0];
      var x := if f.dir == Left then [(f.key, f.value)] + Elems(f.sibling) else [];
      assert (a + b)[0] == f && (a + b)[1..] == a[1..] + b;
      assert After(a + b) == x + After(a[1..] + b);
      AfterAppend(a[1..], b);
      assert After(a) == x + After(a[1..]);
    }
  }

  lemma ElemsIndex<V>(z: Zip<V>)
    requires z.focus.Node?
    ensures Index(z) < |Elems(Root(z))|
    ensures Elems(Root(z))[Index(z)] == (z.focus.key, z.focus.value)
  {
    PlugElems(z.focus, z.path);
  }

  // ---------------------------------------------------------------------
  // The red-black rules along a path

  function BlackOne(c: Color): nat
  {
    if c == Black then 1 else 0
  }

  /** Every sibling along the path is balanced and has the black-height its level needs. */
  predicate PathBal<V>(path: seq<Frame<V>>, h: nat)
    decreases |path|
  {
    path == [] ||
    (Balanced(path[0].sibling) && BH(path[0].sibling) == h && PathBal(path[1..], h + BlackOne(path[0].color)))
  }

  /** No red-red link along the path, given the colour `c` of the subtree below it. */
  predicate PathNRR<V>(path: seq<Frame<V>>, c: Color)
    decreases |path|
  {
    path == [] ||
    (NoRedRed(path[0].sibling) &&
     (path[0].color == Red ==> c == Black && ColorOf(path[0].sibling) == Black) &&
     PathNRR(path[1..], path[0].color))
  }

  lemma PathBalCons<V>(f: Frame<V>, rest: seq<Frame<V>>, h: nat)
    ensures PathBal([f] + rest, h) <==>
            Balanced(f.sibling) && BH(f.sibling) == h && PathBal(rest, h + BlackOne(f.color))
  {
    assert ([f] + rest)[1..] == rest;
  }

  lemma PathNRRCons<V>(f: Frame<V>, rest: seq<Frame<V>>, c: Color)
    ensures PathNRR([f] + rest, c) <==>
            NoRedRed(f.sibling) && (f.color == Red ==> c == Black && ColorOf(f.sibling) == Black) &&
            PathNRR(rest, f.color)
  {
    assert ([f] + rest)[1..] == rest;
  }

  lemma {:induction false} PlugBalanced<V>(t: Tree<V>, path: seq<Frame<V>>)
    ensures Balanced(Plug(t, path)) <==> Balanced(t) && PathBal(path, BH(t))
    decreases |path|
  {
    if path != [] {
      PlugBalanced(Up(t, path[0]), path[1..]);
    }
  }

  lemma {:induction false} PlugNoRedRed<V>(t: Tree<V>, path: seq<Frame<V>>)
    ensures NoRedRed(Plug(t, path)) <==> NoRedRed(t) && PathNRR(path, ColorOf(t))
    decreases |path|
  {
    if path != [] {
      PlugNoRedRed(Up(t, path[0]), path[1..]);
    }
  }

  lemma {:induction false} PlugColor<V>(t: Tree<V>, path: seq<Frame<V>>)
    ensures ColorOf(Plug(t, path)) == if path == [] then ColorOf(t) else path[|path| - 1].color
    decreases |path|
  {
    if path != [] {
      PlugColor(Up(t, path[0]), path[1..]);
      if path[1..] != [] {
        assert path[1..][|path[1..]| - 1] == path[|path| - 1];
      }
    }
  }

  lemma {:induction false} PathNRRWeaken<V>(path: seq<Frame<V>>)
    requires PathNRR(path, Red)
    ensures PathNRR(path, Black)
  {
  }

  // ---------------------------------------------------------------------
  // Rebalancing after an insertion (the source's _RecolorAndRebalanceAfterInsert)

  /** The frames above a position keep the red rule among themselves and with their siblings. */
  predicate UpperNRR<V>(path: seq<Frame<V>>)
  {
    path == [] ||
    (NoRedRed(path[0].sibling) && (path[0].color == Red ==> ColorOf(path[0].sibling) == Black) &&
     PathNRR(path[1..], path[0].color))
  }

  predicate RootFrameBlack<V>(path: seq<Frame<V>>)
  {
    path == [] || path[|path| - 1].color == Black
  }

  /**
   * The loop invariant of the insertion fix-up: the focus is a red node with black
   * children, the black-heights agree everywhere, and the only possible red-red
   * link is between the focus and its parent.
   */
  ghost predicate InsertInv<V>(z: Zip<V>)
  {
    var x := z.focus;
    x.Node? && x.color == Red && ColorOf(x.left) == Black && ColorOf(x.right) == Black &&
    NoRedRed(x.left) && NoRedRed(x.right) && Balanced(x) &&
    PathBal(z.path, BH(x)) && UpperNRR(z.path) && RootFrameBlack(z.path)
  }

  /** Uncle red: parent and uncle turn black, the grandparent turns red and becomes the focus. */
  function InsertRecolor<V>(z: Zip<V>): Zip<V>
    requires |z.path| >= 2 && ColorOf(z.path[1].sibling) == Red
  {
    var p, g := z.path[0], z.path[1];
    Zip(Up(Up(z.focus, p.(color := Black)), g.(color := Red, sibling := g.sibling.(color := Black))), z.path[2..])
  }

  /** Uncle black, focus an inner grandchild: the focus moves to its parent, which is rotated down. */
  function InsertRotateInner<V>(z: Zip<V>): Zip<V>
    requires |z.path| >= 1 && z.focus.Node?
  {
    var p := z.path[0];
    if p.dir == Right then Descend(RotateLeft(Up(z.focus, p)), Left, z.path[1..])
    else Descend(RotateRight(Up(z.focus, p)), Right, z.path[1..])
  }

  /** Uncle black, focus an outer grandchild: recolour parent and grandparent and rotate the grandparent. */
  function InsertRotateOuter<V>(z: Zip<V>): Zip<V>
    requires |z.path| >= 2 && z.path[0].dir == z.path[1].dir
  {
    var p, g := z.path[0], z.path[1];
    var top := Up(Up(z.focus, p.(color := Black)), g.(color := Red));
    if g.dir == Left then Descend(RotateRight(top), Left, z.path[2..])
    else Descend(RotateLeft(top), Right, z.path[2..])
  }

  lemma PathSplit<V>(path: seq<Frame<V>>)
    requires |path| >= 2
    ensures path == [path[0]] + ([path[1]] + path[2..])
    ensures path[1..] == [path[1]] + path[2..] && path[1..][1..] == path[2..]
  {
  }

  lemma InsertGrandparent<V>(z: Zip<V>)
    requires InsertInv(z) && z.path != [] && z.path[0].color == Red
    ensures |z.path| >= 2 && z.path[1].color == Black
  {
    if |z.path| >= 2 {
      PathSplit(z.path);
      PathNRRCons(z.path[1], z.path[2..], Red);
    }
  }

  lemma InsertRecolorKeeps<V>(z: Zip<V>)
    requires InsertInv(z) && |z.path| >= 2 && z.path[0].color == Red && z.path[1].color == Black
    requires ColorOf(z.path[1].sibling) == Red
    ensures InsertInv(InsertRecolor(z))
    ensures Elems(Root(InsertRecolor(z))) == Elems(Root(z))
    ensures |InsertRecolor(z).path| == |z.path| - 2
  {
    var x, p, g, rest := z.focus, z.path[0], z.path[1], z.path[2..];
    var h := BH(x);
    PathSplit(z.path);
    PathBalCons(p, [g] + rest, h);
    PathBalCons(g, rest, h);
    PathNRRCons(g, rest, Red);
    PlugCons(x, p, [g] + rest);
    PlugCons(Up(x, p), g, rest);
    var z' := InsertRecolor(z);
    var u := g.sibling;
    assert BH(u) == BH(u.left);
    assert BH(Up(x, p.(color := Black))) == h + 1;
    assert BH(u.(color := Black)) == h + 1;
    assert Elems(z'.focus) == Elems(Up(Up(x, p), g));
    PlugSameElems(z'.focus, Up(Up(x, p), g), rest);
    if rest != [] {
      assert rest[|rest| - 1] == z.path[|z.path| - 1];
    }
  }

  lemma InsertRotateInnerKeeps<V>(z: Zip<V>)
    requires InsertInv(z) && |z.path| >= 2 && z.path[0].color == Red && z.path[1].color == Black
    requires z.path[0].dir != z.path[1].dir
    ensures InsertInv(InsertRotateInner(z))
    ensures Elems(Root(InsertRotateInner(z))) == Elems(Root(z))
    ensures |InsertRotateInner(z).path| == |z.path|
    ensures InsertRotateInner(z).path[0].color == Red
    ensures InsertRotateInner(z).path[1..] == z.path[1..]
    ensures InsertRotateInner(z).path[0].dir == z.path[1].dir
  {
    var x, p, up := z.focus, z.path[0], z.path[1..];
    var h := BH(x);
    PathSplit(z.path);
    PathBalCons(p, up, h);
    PathNRRCons(p, up, Red);
    PlugCons(x, p, up);
    var z' := InsertRotateInner(z);
    assert z'.path == [z'.path[0]] + up;
    PathBalCons(z'.path[0], up, BH(z'.focus));
    PathNRRCons(z'.path[0], up, Red);
    var r := if p.dir == Right then RotateLeft(Up(x, p)) else RotateRight(Up(x, p));
    assert Root(z') == Plug(r, up);
    PlugSameElems(r, Up(x, p), up);
    assert z'.path[|z'.path| - 1] == z.path[|z.path| - 1];
  }

  lemma InsertRotateOuterKeeps<V>(z: Zip<V>)
    requires InsertInv(z) && |z.path| >= 2 && z.path[0].color == Red && z.path[1].color == Black
    requires z.path[0].dir == z.path[1].dir && ColorOf(z.path[1].sibling) == Black
    ensures InsertInv(InsertRotateOuter(z))
    ensures Elems(Root(InsertRotateOuter(z))) == Elems(Root(z))
    ensures |InsertRotateOuter(z).path| == |z.path| - 1
    ensures InsertRotateOuter(z).path[0].color == Black
  {
    var x, p, g, rest := z.focus, z.path[0], z.path[1], z.path[2..];
    var h := BH(x);
    PathSplit(z.path);
    PathBalCons(p, [g] + rest, h);
    PathBalCons(g, rest, h);
    PathNRRCons(p, [g] + rest, Red);
    PathNRRCons(g, rest, Red);
    var z' := InsertRotateOuter(z);
    var f := z'.path[0];
    assert z'.path == [f] + rest;
    PathBalCons(f, rest, h);
    PathNRRCons(f, rest, Red);
    RootFrameBlackCons(p, [g] + rest);
    RootFrameBlackCons(g, rest);
    RootFrameBlackCons(f, rest);
    InsertRotateOuterElems(z);
  }

  lemma InsertRotateOuterElems<V>(z: Zip<V>)
    requires |z.path| >= 2 && z.path[0].dir == z.path[1].dir
    ensures Elems(Root(InsertRotateOuter(z))) == Elems(Root(z))
  {
    var x, p, g, rest := z.focus, z.path[0], z.path[1], z.path[2..];
    PathSplit(z.path);
    PlugCons(x, p, [g] + rest);
    PlugCons(Up(x, p), g, rest);
    var z' := InsertRotateOuter(z);
    var f := z'.path[0];
    assert z'.path == [f] + rest;
    PlugCons(x, f, rest);
    if g.dir == Left {
      Regroup(Elems(x), (p.key, p.value), Elems(p.sibling), (g.key, g.value), Elems(g.sibling));
    } else {
      Regroup(Elems(g.sibling), (g.key, g.value), Elems(p.sibling), (p.key, p.value), Elems(x));
    }
    assert Elems(Up(x, f)) == Elems(Up(Up(x, p), g));
    PlugSameElems(Up(x, f), Up(Up(x, p), g), rest);
  }

  /** The frame at the root is the last one of the path. */
  lemma RootFrameBlackCons<V>(f: Frame<V>, rest: seq<Frame<V>>)
    ensures RootFrameBlack([f] + rest) <==> if rest == [] then f.color == Black else RootFrameBlack(rest)
  {
    if rest != [] {
      assert ([f] + rest)[|rest|] == rest[|rest| - 1];
    }
  }

  lemma BlackenRedBlack<V>(t: Tree<V>)
    requires Balanced(t) && NoRedRed(t)
    ensures IsRedBlack(Blacken(t))
  {
  }

  /** When the fix-up loop stops, painting the root black leaves a red-black tree. */
  lemma InsertDone<V>(z: Zip<V>)
    requires InsertInv(z) && (z.path == [] || z.path[0].color == Black)
    ensures IsRedBlack(Blacken(Root(z)))
  {
    PlugBalanced(z.focus, z.path);
    PlugNoRedRed(z.focus, z.path);
    BlackenRedBlack(Root(z));
  }

  /** A fresh red node hung in place of a sentinel of a red-black tree meets the fix-up invariant. */
  lemma InsertStart<V>(path: seq<Frame<V>>, k: int, v: V)
    requires IsRedBlack(Plug(Leaf, path))
    ensures InsertInv(Zip(Node(Red, Leaf, k, v, Leaf), path))
  {
    PlugBalanced(Leaf, path);
    PlugNoRedRed(Leaf, path);
    PlugColor(Leaf, path);
  }

  // ---------------------------------------------------------------------
  // Rebalancing after a removal (the source's _RecolorAndRebalanceAfterRemove)

  predicate KidsNRR<V>(t: Tree<V>)
  {
    t.Leaf? || (NoRedRed(t.left) && NoRedRed(t.right))
  }

  /**
   * The loop invariant of the removal fix-up: every path through the focus has one
   * black node too few, the subtrees below the focus keep the red rule, and the only
   * possible red-red link is between the focus and its parent.
   */
  ghost predicate RemoveInv<V>(z: Zip<V>)
  {
    Balanced(z.focus) && PathBal(z.path, BH(z.focus) + 1) && KidsNRR(z.focus) &&
    UpperNRR(z.path) && RootFrameBlack(z.path)
  }

  lemma RemoveSiblingNode<V>(z: Zip<V>)
    requires RemoveInv(z) && z.path != []
    ensures z.path[0].sibling.Node? && BH(z.path[0].sibling) == BH(z.focus) + 1
  {
  }

  /** Case 1, sibling red: sibling and parent swap colours and the parent is rotated towards the focus. */
  function RemoveRedSibling<V>(z: Zip<V>): Zip<V>
    requires z.path != [] && z.path[0].sibling.Node?
  {
    var p := z.path[0];
    var par := Up(z.focus, p.(color := Red, sibling := p.sibling.(color := Black)));
    if p.dir == Left then
      var z1 := Descend(RotateLeft(par), Left, z.path[1..]);
      Descend(z1.focus, Left, z1.path)
    else
      var z1 := Descend(RotateRight(par), Right, z.path[1..]);
      Descend(z1.focus, Right, z1.path)
  }

  /** Case 2, both nephews black: the sibling turns red and the focus moves to the parent. */
  function RemoveBlackNephews<V>(z: Zip<V>): Zip<V>
    requires z.path != [] && z.path[0].sibling.Node?
  {
    var p := z.path[0];
    Zip(Up(z.focus, p.(sibling := p.sibling.(color := Red))), z.path[1..])
  }

  /** Case 3 on the sibling alone: the near nephew turns black, the sibling red, and the sibling is rotated away from the focus. */
  function RotateNearNephew<V>(w: Tree<V>, d: Dir): Tree<V>
    requires w.Node? && (if d == Left then w.left.Node? else w.right.Node?)
  {
    if d == Left then RotateRight(w.(color := Red, left := w.left.(color := Black)))
    else RotateLeft(w.(color := Red, right := w.right.(color := Black)))
  }

  /** Case 3, far nephew black: the sibling is replaced by its rotation, the focus stays put. */
  function RemoveNearNephew<V>(z: Zip<V>): Zip<V>
    requires z.path != [] && z.path[0].sibling.Node?
    requires if z.path[0].dir == Left then z.path[0].sibling.left.Node? else z.path[0].sibling.right.Node?
  {
    var p := z.path[0];
    Zip(z.focus, [p.(sibling := RotateNearNephew(p.sibling, p.dir))] + z.path[1..])
  }

  /** Case 4 on the parent alone: recolour the sibling and its far child, paint the parent black and rotate it towards the focus. */
  function RotateFarNephew<V>(x: Tree<V>, p: Frame<V>): Tree<V>
    requires p.sibling.Node?
    requires if p.dir == Left then p.sibling.right.Node? else p.sibling.left.Node?
  {
    var w := p.sibling;
    var w' := if p.dir == Left then w.(color := p.color, right := w.right.(color := Black))
              else w.(color := p.color, left := w.left.(color := Black));
    var par := Up(x, p.(color := Black, sibling := w'));
    if p.dir == Left then RotateLeft(par) else RotateRight(par)
  }

  /** Case 4, far nephew red: after the rotation the tree is complete and the fix-up finishes at the root. */
  function RemoveFarNephew<V>(z: Zip<V>): Zip<V>
    requires z.path != [] && z.path[0].sibling.Node?
    requires if z.path[0].dir == Left then z.path[0].sibling.right.Node? else z.path[0].sibling.left.Node?
  {
    Zip(Plug(RotateFarNephew(z.focus, z.path[0]), z.path[1..]), [])
  }

  lemma NoRedRedBlack<V>(t: Tree<V>)
    requires KidsNRR(t) && ColorOf(t) == Black
    ensures NoRedRed(t)
  {
  }

  /** Case 1 spelled out: the old parent, now red, becomes the focus's parent, the old sibling, now black, its grandparent. */
  lemma RemoveRedSiblingShape<V>(z: Zip<V>)
    requires z.path != [] && z.path[0].sibling.Node?
    ensures var p, w := z.path[0], z.path[0].sibling;
            RemoveRedSibling(z) ==
              if p.dir == Left then
                Zip(z.focus, [Frame(Left, Red, p.key, p.value, w.left), Frame(Left, Black, w.key, w.value, w.right)] + z.path[1..])
              else
                Zip(z.focus, [Frame(Right, Red, p.key, p.value, w.right), Frame(Right, Black, w.key, w.value, w.left)] + z.path[1..])
  {
    var p, w := z.path[0], z.path[0].sibling;
    var up := z.path[1..];
    if p.dir == Left {
      var z1 := Descend(RotateLeft(Up(z.focus, p.(color := Red, sibling := w.(color := Black)))), Left, up);
      assert z1 == Zip(Node(Red, z.focus, p.key, p.value, w.left), [Frame(Left, Black, w.key, w.value, w.right)] + up);
    } else {
      var z1 := Descend(RotateRight(Up(z.focus, p.(color := Red, sibling := w.(color := Black)))), Right, up);
      assert z1 == Zip(Node(Red, w.right, p.key, p.value, z.focus), [Frame(Right, Black, w.key, w.value, w.left)] + up);
    }
  }

  lemma RemoveRedSiblingKeeps<V>(z: Zip<V>)
    requires RemoveInv(z) && z.path != [] && ColorOf(z.focus) == Black
    requires ColorOf(z.path[0].sibling) == Red
    ensures RemoveInv(RemoveRedSibling(z))
    ensures Elems(Root(RemoveRedSibling(z))) == Elems(Root(z))
    ensures RemoveRedSibling(z).focus == z.focus
    ensures |RemoveRedSibling(z).path| == |z.path| + 1
    ensures RemoveRedSibling(z).path[0].color == Red
    ensures RemoveRedSibling(z).path[0].dir == z.path[0].dir
    ensures ColorOf(RemoveRedSibling(z).path[0].sibling) == Black
  {
    var x, p, up := z.focus, z.path[0], z.path[1..];
    var h := BH(x);
    var Node(_, wl, wk, wv, wr) := p.sibling;
    assert z.path == [p] + up;
    PathBalCons(p, up, h + 1);
    PathNRRCons(p, up, ColorOf(x));
    RemoveRedSiblingShape(z);
    var z' := RemoveRedSibling(z);
    var f0, f1 := z'.path[0], z'.path[1];
    assert z'.path == [f0] + ([f1] + up);
    assert BH(wl) == h + 1 && BH(wr) == h + 1;
    assert Balanced(wl) && Balanced(wr) && NoRedRed(wl) && NoRedRed(wr);
    assert ColorOf(wl) == Black && ColorOf(wr) == Black;
    PathBalCons(f0, [f1] + up, h + 1);
    PathBalCons(f1, up, h + 1);
    PathNRRCons(f1, up, Red);
    RootFrameBlackCons(p, up);
    RootFrameBlackCons(f0, [f1] + up);
    RootFrameBlackCons(f1, up);
    RemoveRedSiblingElems(z);
  }

  lemma RemoveRedSiblingElems<V>(z: Zip<V>)
    requires z.path != [] && z.path[0].sibling.Node?
    ensures Elems(Root(RemoveRedSibling(z))) == Elems(Root(z))
  {
    var x, p, up := z.focus, z.path[0], z.path[1..];
    var Node(_, wl, wk, wv, wr) := p.sibling;
    assert z.path == [p] + up;
    RemoveRedSiblingShape(z);
    var z' := RemoveRedSibling(z);
    var f0, f1 := z'.path[0], z'.path[1];
    assert z'.path == [f0] + ([f1] + up);
    PlugCons(x, f0, [f1] + up);
    PlugCons(Up(x, f0), f1, up);
    PlugCons(x, p, up);
    if p.dir == Left {
      Regroup(Elems(x), (p.key, p.value), Elems(wl), (wk, wv), Elems(wr));
    } else {
      Regroup(Elems(wl), (wk, wv), Elems(wr), (p.key, p.value), Elems(x));
    }
    assert Elems(Up(Up(x, f0), f1)) == Elems(Up(x, p));
    PlugSameElems(Up(Up(x, f0), f1), Up(x, p), up);
  }

  lemma RemoveBlackNephewsKeeps<V>(z: Zip<V>)
    requires RemoveInv(z) && z.path != [] && ColorOf(z.focus) == Black
    requires ColorOf(z.path[0].sibling) == Black
    requires ColorOf(z.path[0].sibling.left) == Black && ColorOf(z.path[0].sibling.right) == Black
    ensures RemoveInv(RemoveBlackNephews(z))
    ensures Elems(Root(RemoveBlackNephews(z))) == Elems(Root(z))
    ensures |RemoveBlackNephews(z).path| == |z.path| - 1
    ensures z.path[0].color == Red ==> ColorOf(RemoveBlackNephews(z).focus) == Red
  {
    var x, p, up := z.focus, z.path[0], z.path[1..];
    var h := BH(x);
    assert z.path == [p] + up;
    PathBalCons(p, up, h + 1);
    PathNRRCons(p, up, ColorOf(x));
    PlugCons(x, p, up);
    NoRedRedBlack(x);
    var z' := RemoveBlackNephews(z);
    assert Elems(z'.focus) == Elems(Up(x, p));
    PlugSameElems(z'.focus, Up(x, p), up);
    if up != [] {
      assert up[|up| - 1] == z.path[|z.path| - 1];
    }
  }

  /** Case 3 keeps the sibling balanced, black and with the same contents, and makes its far child red. */
  lemma RotateNearNephewKeeps<V>(w: Tree<V>, d: Dir)
    requires w.Node? && Balanced(w) && NoRedRed(w) && w.color == Black
    requires if d == Left then ColorOf(w.left) == Red && ColorOf(w.right) == Black
             else ColorOf(w.right) == Red && ColorOf(w.left) == Black
    ensures var w' := RotateNearNephew(w, d);
            Balanced(w') && NoRedRed(w') && BH(w') == BH(w) && ColorOf(w') == Black &&
            Elems(w') == Elems(w) && (if d == Left then ColorOf(w'.right) == Red else ColorOf(w'.left) == Red)
  {
    var Node(_, wl, wk, wv, wr) := w;
    if d == Left {
      var Node(_, a, k, v, b) := wl;
      assert BH(a) == BH(b) == BH(wr) && Balanced(a) && Balanced(b) && NoRedRed(a) && NoRedRed(b);
      assert RotateNearNephew(w, d) == Node(Black, a, k, v, Node(Red, b, wk, wv, wr));
      Regroup(Elems(a), (k, v), Elems(b), (wk, wv), Elems(wr));
    } else {
      var Node(_, a, k, v, b) := wr;
      assert BH(a) == BH(b) == BH(wl) && Balanced(a) && Balanced(b) && NoRedRed(a) && NoRedRed(b);
      assert RotateNearNephew(w, d) == Node(Black, Node(Red, wl, wk, wv, a), k, v, b);
      Regroup(Elems(wl), (wk, wv), Elems(a), (k, v), Elems(b));
    }
  }

  lemma RemoveNearNephewKeeps<V>(z: Zip<V>)
    requires RemoveInv(z) && z.path != [] && ColorOf(z.focus) == Black
    requires ColorOf(z.path[0].sibling) == Black
    requires if z.path[0].dir == Left then ColorOf(z.path[0].sibling.left) == Red && ColorOf(z.path[0].sibling.right) == Black
             else ColorOf(z.path[0].sibling.right) == Red && ColorOf(z.path[0].sibling.left) == Black
    ensures RemoveInv(RemoveNearNephew(z))
    ensures Elems(Root(RemoveNearNephew(z))) == Elems(Root(z))
    ensures RemoveNearNephew(z).focus == z.focus
    ensures |RemoveNearNephew(z).path| == |z.path|
    ensures RemoveNearNephew(z).path[0].dir == z.path[0].dir
    ensures ColorOf(RemoveNearNephew(z).path[0].sibling) == Black
    ensures if z.path[0].dir == Left then ColorOf(RemoveNearNephew(z).path[0].sibling.right) == Red
            else ColorOf(RemoveNearNephew(z).path[0].sibling.left) == Red
  {
    var x, p, up := z.focus, z.path[0], z.path[1..];
    var h := BH(x);
    assert z.path == [p] + up;
    PathBalCons(p, up, h + 1);
    PathNRRCons(p, up, ColorOf(x));
    RotateNearNephewKeeps(p.sibling, p.dir);
    var z' := RemoveNearNephew(z);
    var f := z'.path[0];
    assert z'.path == [f] + up;
    PathBalCons(f, up, h + 1);
    PathNRRCons(f, up, ColorOf(x));
    PlugCons(x, f, up);
    PlugCons(x, p, up);
    assert Elems(Up(x, f)) == Elems(Up(x, p));
    PlugSameElems(Up(x, f), Up(x, p), up);
    if up != [] {
      assert z'.path[|z'.path| - 1] == z.path[|z.path| - 1];
    }
  }

  /** Case 4 rebuilds a balanced subtree with the parent's colour, one black level higher than the focus's. */
  lemma RotateFarNephewKeeps<V>(x: Tree<V>, p: Frame<V>)
    requires Balanced(x) && NoRedRed(x) && p.sibling.Node?
    requires Balanced(p.sibling) && NoRedRed(p.sibling) && BH(p.sibling) == BH(x) + 1 && p.sibling.color == Black
    requires if p.dir == Left then ColorOf(p.sibling.right) == Red else ColorOf(p.sibling.left) == Red
    ensures var r := RotateFarNephew(x, p);
            Balanced(r) && NoRedRed(r) && ColorOf(r) == p.color && BH(r) == BH(x) + 1 + BlackOne(p.color) &&
            Elems(r) == Elems(Up(x, p))
  {
    var Node(_, wl, wk, wv, wr) := p.sibling;
    if p.dir == Left {
      var Node(_, a, k, v, b) := wr;
      assert BH(a) == BH(b) == BH(wl) == BH(x) && Balanced(a) && Balanced(b) && NoRedRed(a) && NoRedRed(b);
      assert RotateFarNephew(x, p) == Node(p.color, Node(Black, x, p.key, p.value, wl), wk, wv, Node(Black, a, k, v, b));
      Regroup(Elems(x), (p.key, p.value), Elems(wl), (wk, wv), Elems(wr));
    } else {
      var Node(_, a, k, v, b) := wl;
      assert BH(a) == BH(b) == BH(wr) == BH(x) && Balanced(a) && Balanced(b) && NoRedRed(a) && NoRedRed(b);
      assert RotateFarNephew(x, p) == Node(p.color, Node(Black, a, k, v, b), wk, wv, Node(Black, wr, p.key, p.value, x));
      Regroup(Elems(wl), (wk, wv), Elems(wr), (p.key, p.value), Elems(x));
    }
  }

  lemma RemoveFarNephewDone<V>(z: Zip<V>)
    requires RemoveInv(z) && z.path != [] && ColorOf(z.focus) == Black
    requires ColorOf(z.path[0].sibling) == Black
    requires if z.path[0].dir == Left then ColorOf(z.path[0].sibling.right) == Red else ColorOf(z.path[0].sibling.left) == Red
    ensures RemoveFarNephew(z).path == [] && IsRedBlack(RemoveFarNephew(z).focus)
    ensures Elems(Root(RemoveFarNephew(z))) == Elems(Root(z))
  {
    var x, p, up := z.focus, z.path[0], z.path[1..];
    var h := BH(x);
    assert z.path == [p] + up;
    PathBalCons(p, up, h + 1);
    PathNRRCons(p, up, ColorOf(x));
    PlugCons(x, p, up);
    NoRedRedBlack(x);
    var r := RotateFarNephew(x, p);
    RotateFarNephewKeeps(x, p);
    PlugBalanced(r, up);
    PlugNoRedRed(r, up);
    PlugColor(r, up);
    RootFrameBlackCons(p, up);
    PlugSameElems(r, Up(x, p), up);
  }

  /** When the removal fix-up stops, painting the focus black leaves a red-black tree. */
  lemma RemoveDone<V>(z: Zip<V>)
    requires RemoveInv(z) && (z.path == [] || ColorOf(z.focus) == Red)
    ensures IsRedBlack(Plug(Blacken(z.focus), z.path))
  {
    var x := Blacken(z.focus);
    assert NoRedRed(x) && Balanced(x);
    if z.path != [] {
      assert BH(x) == BH(z.focus) + 1;
    }
    PlugBalanced(x, z.path);
    PlugNoRedRed(x, z.path);
    PlugColor(x, z.path);
  }

  /**
   * Splicing out a node y that has a sentinel child, putting its other child x in its
   * place: if y was red the tree stays red-black, otherwise x's position meets the
   * removal fix-up invariant.
   */
  lemma SpliceKeeps<V>(y: Tree<V>, path: seq<Frame<V>>)
    requires IsRedBlack(Plug(y, path)) && y.Node? && (y.left.Leaf? || y.right.Leaf?)
    ensures var x := if y.left.Node? then y.left else y.right;
            if y.color == Black then RemoveInv(Zip(x, path)) else IsRedBlack(Plug(x, path))
  {
    var x := if y.left.Node? then y.left else y.right;
    PlugBalanced(y, path);
    PlugNoRedRed(y, path);
    PlugColor(y, path);
    PlugBalanced(x, path);
    PlugNoRedRed(x, path);
    PlugColor(x, path);
    assert BH(x) == 0;
    if y.color == Red {
      PathNRRWeaken(path);
    }
  }

  // ---------------------------------------------------------------------
  // Positions and key order

  /** Moves from a node to its parent. */
  function Ascend<V>(z: Zip<V>): (p: Zip<V>)
    requires z.path != []
    ensures Root(p) == Root(z) && p.focus.Node?
  {
    Zip(Up(z.focus, z.path[0]), z.path[1..])
  }

  lemma DescendParts<V>(t: Tree<V>, d: Dir, path: seq<Frame<V>>)
    requires t.Node?
    ensures Before(Descend(t, d, path).path) ==
            Before(path) + (if d == Right then Elems(t.left) + [(t.key, t.value)] else [])
    ensures After(Descend(t, d, path).path) ==
            (if d == Left then [(t.key, t.value)] + Elems(t.right) else []) + After(path)
    ensures Descend(t, d, path).focus == if d == Left then t.left else t.right
  {
  }

  /**
   * Going up from a left child keeps what precedes the subtree and lands just after
   * the child's subtree; going up from a right child keeps where the subtree ends and
   * lands just before the child's subtree.
   */
  lemma AscendIndex<V>(z: Zip<V>)
    requires z.path != []
    ensures z.path[0].dir == Left ==> Before(Ascend(z).path) == Before(z.path)
    ensures z.path[0].dir == Left ==> Index(Ascend(z)) == |Before(z.path)| + |Elems(z.focus)|
    ensures z.path[0].dir == Right ==>
              |Before(Ascend(z).path)| + |Elems(Ascend(z).focus)| == |Before(z.path)| + |Elems(z.focus)|
    ensures z.path[0].dir == Right ==> Index(Ascend(z)) + 1 == |Before(z.path)|
  {
  }

  /** Every key before the position is below `key`, and every key after it above. */
  ghost predicate Between<V>(path: seq<Frame<V>>, key: int)
  {
    Around(Before(path), key, After(path))
  }

  /** A search for `key` that steps towards it keeps every smaller key before and every larger one after. */
  lemma DescendBetween<V>(z: Zip<V>, key: int)
    requires z.focus.Node? && Sorted(Elems(Root(z))) && Between(z.path, key) && key != z.focus.key
    ensures Between(Descend(z.focus, if key < z.focus.key then Left else Right, z.path).path, key)
  {
    var Node(_, l, k, v, r) := z.focus;
    var B, A := Before(z.path), After(z.path);
    FocusElems(z);
    SortedSplit((B + Elems(l)) + [(k, v)], Elems(r) + A);
    SortedSplit(B + Elems(l), [(k, v)]);
    if key < k {
      DescendParts(z.focus, Left, z.path);
      forall p | p in [(k, v)] + Elems(r) + A
        ensures p.0 > key
      {
        if p in Elems(r) {
          assert p in Elems(r) + A;
          assert (k, v) in (B + Elems(l)) + [(k, v)];
        }
      }
    } else {
      DescendParts(z.focus, Right, z.path);
      forall p | p in B + Elems(l) + [(k, v)]
        ensures p.0 < key
      {
        if p in Elems(l) {
          assert p in B + Elems(l);
        }
      }
    }
  }

  lemma LeafElems<V>(z: Zip<V>)
    requires z.focus.Leaf?
    ensures Elems(Root(z)) == Before(z.path) + After(z.path)
  {
    PlugElems(z.focus, z.path);
    assert Before(z.path) + [] + After(z.path) == Before(z.path) + After(z.path);
  }

  /** A search that ends at a sentinel has found the slot where `key` belongs. */
  lemma BetweenLeaf<V>(z: Zip<V>, key: int)
    requires z.focus.Leaf? && Between(z.path, key)
    ensures Elems(Root(z)) == Before(z.path) + After(z.path)
    ensures key !in MapOf(Before(z.path) + After(z.path))
  {
    LeafElems(z);
    AroundAbsent(Before(z.path), key, After(z.path));
  }

  /** Keys in a sorted tree: a key before the slot is smaller, one after it larger. */
  lemma BetweenIndex<V>(z: Zip<V>, key: int)
    requires z.focus.Node? && Between(z.path, key)
    ensures |Elems(Root(z))| == |Before(z.path)| + |Elems(z.focus)| + |After(z.path)|
    ensures forall j | 0 <= j < |Before(z.path)| :: Elems(Root(z))[j].0 < key
    ensures forall j | |Before(z.path)| + |Elems(z.focus)| <= j < |Elems(Root(z))| :: Elems(Root(z))[j].0 > key
  {
    PlugElems(z.focus, z.path);
    AroundIndex(Before(z.path), Elems(z.focus), After(z.path), key);
  }

  /** The contents around a node: what precedes it, its left subtree, itself, its right subtree, what follows. */
  lemma FocusElems<V>(z: Zip<V>)
    requires z.focus.Node?
    ensures Elems(Root(z)) ==
            (Before(z.path) + Elems(z.focus.left)) + [(z.focus.key, z.focus.value)] + (Elems(z.focus.right) + After(z.path))
  {
    PlugElems(z.focus, z.path);
  }

  /** Giving the node at a position another key and value changes only that entry of the contents... */
  lemma RelabelElems<V>(z: Zip<V>, k: int, v: V)
    requires z.focus.Node?
    ensures Index(z) < |Elems(Root(z))|
    ensures Elems(Plug(z.focus.(key := k, value := v), z.path)) == Elems(Root(z))[Index(z) := (k, v)]
  {
    var t := z.focus;
    var z' := Zip(t.(key := k, value := v), z.path);
    FocusElems(z);
    FocusElems(z');
    ReplaceMiddle(Before(z.path) + Elems(t.left), (t.key, t.value), (k, v), Elems(t.right) + After(z.path));
  }

  lemma ReplaceMiddle<T>(a: seq<T>, x: T, y: T, b: seq<T>)
    ensures (a + [x] + b)[|a| := y] == a + [y] + b
  {
  }

  /** ...and none of the colours. */
  lemma RelabelRedBlack<V>(z: Zip<V>, k: int, v: V)
    requires z.focus.Node? && IsRedBlack(Root(z))
    ensures IsRedBlack(Plug(z.focus.(key := k, value := v), z.path))
  {
    var t := z.focus;
    var t' := t.(key := k, value := v);
    PlugBalanced(t, z.path);
    PlugBalanced(t', z.path);
    PlugNoRedRed(t, z.path);
    PlugNoRedRed(t', z.path);
    PlugColor(t, z.path);
    PlugColor(t', z.path);
  }

  /** Splicing out a node with a sentinel child removes exactly its entry from the contents. */
  lemma SpliceElems<V>(z: Zip<V>)
    requires z.focus.Node? && (z.focus.left.Leaf? || z.focus.right.Leaf?)
    ensures Index(z) < |Elems(Root(z))|
    ensures var x := if z.focus.left.Node? then z.focus.left else z.focus.right;
            Elems(Plug(x, z.path)) == Elems(Root(z))[..Index(z)] + Elems(Root(z))[Index(z) + 1..]
  {
    var x := if z.focus.left.Node? then z.focus.left else z.focus.right;
    var L, R := Elems(z.focus.left), Elems(z.focus.right);
    FocusElems(z);
    PlugElems(x, z.path);
    assert Elems(x) == L + R by {
      if z.focus.left.Node? {
        assert R == [];
      } else {
        assert L == [];
      }
    }
    RemoveMiddle(Elems(Root(z)), Elems(Plug(x, z.path)), Before(z.path), L, (z.focus.key, z.focus.value), R, After(z.path));
  }

  /** Taking e out of b + l + [e] + r + a leaves b + (l + r) + a. */
  lemma RemoveMiddle<T>(s: seq<T>, t: seq<T>, b: seq<T>, l: seq<T>, e: T, r: seq<T>, a: seq<T>)
    requires s == (b + l) + [e] + (r + a) && t == b + (l + r) + a
    ensures |b| + |l| < |s| && s[..|b| + |l|] + s[|b| + |l| + 1..] == t
  {
    assert s[..|b| + |l|] == b + l;
    assert s[|b| + |l| + 1..] == r + a;
  }

  /**
   * When the node to remove has two children, its in-order successor `y` (the
   * leftmost node of its right subtree) lends it its key and value and is spliced
   * out instead.  The position of `y` in the relabelled tree is one after the
   * removed node's.
   */
  lemma SuccessorSwap<V>(z: Zip<V>, inner: seq<Frame<V>>, y: Tree<V>)
    requires z.focus.Node? && y.Node? && y.left.Leaf? && Plug(y, inner) == z.focus.right && Before(inner) == []
    ensures var Y := Zip(y, inner + [Frame(Right, z.focus.color, y.key, y.value, z.focus.left)] + z.path);
            Root(Y) == Plug(z.focus.(key := y.key, value := y.value), z.path) &&
            Index(Y) == Index(z) + 1 && Index(Y) < |Elems(Root(z))| &&
            Elems(Root(z))[Index(z) + 1] == (y.key, y.value)
  {
    SuccessorRoot(z, inner, y);
    SuccessorIndex(z, inner, y);
    SuccessorEntry(z, inner, y);
  }

  lemma SuccessorRoot<V>(z: Zip<V>, inner: seq<Frame<V>>, y: Tree<V>)
    requires z.focus.Node? && y.Node? && Plug(y, inner) == z.focus.right
    ensures Plug(y, inner + [Frame(Right, z.focus.color, y.key, y.value, z.focus.left)] + z.path) ==
            Plug(z.focus.(key := y.key, value := y.value), z.path)
  {
    var f := Frame(Right, z.focus.color, y.key, y.value, z.focus.left);
    PlugAppend(y, inner + [f], z.path);
    PlugAppend(y, inner, [f]);
    PlugCons(z.focus.right, f, []);
  }

  lemma SuccessorIndex<V>(z: Zip<V>, inner: seq<Frame<V>>, y: Tree<V>)
    requires z.focus.Node? && y.Node? && y.left.Leaf? && Before(inner) == []
    ensures Index(Zip(y, inner + [Frame(Right, z.focus.color, y.key, y.value, z.focus.left)] + z.path)) == Index(z) + 1
  {
    var f := Frame(Right, z.focus.color, y.key, y.value, z.focus.left);
    BeforeAppend(inner + [f], z.path);
    BeforeAppend(inner, [f]);
    assert Before([f]) == Elems(z.focus.left) + [(y.key, y.value)];
  }

  lemma SuccessorEntry<V>(z: Zip<V>, inner: seq<Frame<V>>, y: Tree<V>)
    requires z.focus.Node? && y.Node? && y.left.Leaf? && Plug(y, inner) == z.focus.right && Before(inner) == []
    ensures Index(z) + 1 < |Elems(Root(z))| && Elems(Root(z))[Index(z) + 1] == (y.key, y.value)
  {
    PlugElems(y, inner);
    FocusElems(z);
    NextAfter(Elems(Root(z)), Before(z.path), Elems(z.focus.left), (z.focus.key, z.focus.value),
              Elems(z.focus.right), After(z.path), Before(inner), Elems(y.left), (y.key, y.value), Elems(y.right), After(inner));
  }

  /** In b + l + [e] + (r + a), where r is y with nothing before it, y comes right after e. */
  lemma NextAfter<T>(s: seq<T>, b: seq<T>, l: seq<T>, e: T, r: seq<T>, a: seq<T>,
                     rb: seq<T>, yl: seq<T>, y: T, yr: seq<T>, ra: seq<T>)
    requires s == (b + l) + [e] + (r + a) && r == rb + (yl + [y] + yr) + ra && rb == [] && yl == []
    ensures |b| + |l| + 1 < |s| && s[|b| + |l| + 1] == y
  {
    assert r[0] == y;
    assert s[|b| + |l| + 1] == (r + a)[0];
  }

  /** Copying the successor's entry over the removed one and then dropping the successor removes one entry. */
  lemma SwapThenSplice<V>(E: seq<(int, V)>, i: nat)
    requires i + 1 < |E|
    ensures var E1 := E[i := E[i + 1]]; E1[..i + 1] + E1[i + 2..] == E[..i] + E[i + 1..]
  {
  }

  // ---------------------------------------------------------------------
  // Heights

  /**
   * The source's BlackHeight: the black-height computed on both sides of every
   * node, failing its assertion (`None`) when the two sides disagree.
   */
  function BlackHeight<V>(t: Tree<V>): (r: Option<nat>)
    ensures r.Some? <==> Balanced(t)
    ensures r.Some? ==> r.value == BH(t)
  {
    match t
    case Leaf => Some(0)
    case Node(c, l, _, _, rt) =>
      var lh, rh := BlackHeight(l), BlackHeight(rt);
      if lh.None? || rh.None? || lh.value != rh.value then None
      else Some(lh.value + BlackOne(c))
  }

  /** The source's Height: the number of nodes on a longest path down to a sentinel. */
  function Height<V>(t: Tree<V>): nat
  {
    match t
    case Leaf => 0
    case Node(_, l, _, _, r) => 1 + if Height(l) < Height(r) then Height(r) else Height(l)
  }

  function Pow2(n: nat): nat
  {
    if n == 0 then 1 else 2 * Pow2(n - 1)
  }

  /** No path is more than twice as long as the black-height: red nodes never come in pairs. */
  lemma {:induction false} HeightBound<V>(t: Tree<V>)
    requires Balanced(t) && NoRedRed(t)
    ensures Height(t) <= 2 * BH(t) + (if ColorOf(t) == Red then 1 else 0)
  {
    if t.Node? {
      HeightBound(t.left);
      HeightBound(t.right);
    }
  }

  /** A balanced tree holds at least 2^bh - 1 nodes. */
  lemma {:induction false} SizeBound<V>(t: Tree<V>)
    requires Balanced(t)
    ensures |Elems(t)| + 1 >= Pow2(BH(t))
  {
    if t.Node? {
      SizeBound(t.left);
      SizeBound(t.right);
    }
  }

  /** Hence a red-black tree of height h holds at least 2^(h/2) - 1 nodes. */
  lemma RedBlackHeight<V>(t: Tree<V>)
    requires IsRedBlack(t)
    ensures |Elems(t)| + 1 >= Pow2(Height(t) / 2)
  {
    HeightBound(t);
    SizeBound(t);
    Pow2Monotone(Height(t) / 2, BH(t));
  }

  lemma {:induction false} Pow2Monotone(a: nat, b: nat)
    requires a <= b
    ensures Pow2(a) <= Pow2(b)
    decreases b
  {
    if a < b {
      Pow2Monotone(a, b - 1);
    }
  }
}
