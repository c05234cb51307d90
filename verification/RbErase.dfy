/**
 Restoring the rules on the way up after a black node has gone
 (kernel/ds/rbtree.c).
 */
module RbErasure {
  import opened RbNodes
  import opened RbShapes
  import opened RbTurns
  import opened RbInsertion

  /** The subtree in focus is right below its root but has one black node too few. */
  ghost predicate Short(z: Zip, t: Tree) {
    (t.Fork? ==> Rb(t.l) && Rb(t.r) && Bh(t.l) == Bh(t.r)) && ZRb(z, Bh(t) + 1, false)
  }

  /** A subtree that lacks a black node and has no red root has a sibling. */
  lemma {:induction false} Sibling(z: Zip, t: Tree)
    requires Short(z, t) && z.In? && !IsRed(t)
    ensures Rb(t) && z.sib.Fork? && Rb(z.sib) && Bh(z.sib) == Bh(t) + 1 && (z.red ==> !IsRed(z.sib))
    ensures ZRb(z.up, Bh(t) + 1 + (if z.red then 0 else 1), z.red)
  {
  }

  /** The fields the loop reads, in terms of the shape. */
  lemma {:induction false} Around(m: Fields, z: Zip, t: Tree)
    requires Focus(m, z, t) && z.In? && z.sib.Fork?
    ensures z.n in m && z.sib.n in m && m[z.n].red == z.red && m[z.n].parent == ZParent(z.up)
    ensures (if z.d then m[z.n].left else m[z.n].right) == Root(t) != z.sib.n
    ensures (if z.d then m[z.n].right else m[z.n].left) == z.sib.n
    ensures m[z.sib.n] == MkRec(z.d, z.n, Root(Near(z.d, z.sib)), Root(Far(z.d, z.sib)), z.sib.red)
    ensures forall d :: Near(d, z.sib).Fork? ==> Near(d, z.sib).n in m && m[Near(d, z.sib).n].red == Near(d, z.sib).red
  {
    RootIn(t);
    RootIn(z.sib);
    assert Linked(m, z.sib, z.n);
    assert Linked(m, z.sib.l, z.sib.n) && Linked(m, z.sib.r, z.sib.n);
  }

  /** Paints the sibling of the focus. */
  method PaintSibling(ghost ns: set<RbNode>, w: RbNode, c: bool, ghost z: Zip, ghost t: Tree)
    requires Focus(Snap(ns), z, t) && z.In? && z.sib.Fork? && z.sib.n == w && w in ns
    modifies w`red
    ensures Focus(Snap(ns), z.(sib := z.sib.(red := c)), t)
  {
    hide Focus, Mk;
    FocusUp(Snap(ns), z, t);
    Mirror(z.d, z.red, t, z.n, z.sib);
    FocusDown(Snap(ns), z.up, !z.d, z.red, z.sib, z.n, t);
    Paint(ns, w, c, In(!z.d, z.red, z.n, t, z.up), z.sib);
    ghost var u := z.sib.(red := c);
    FocusDown(Snap(ns), z.up, !z.d, z.red, u, z.n, t);
    Mirror(z.d, z.red, t, z.n, u);
    FocusDown(Snap(ns), z.up, z.d, z.red, t, z.n, u);
  }

  /** Paints the parent of the focus. */
  method PaintParent(ghost ns: set<RbNode>, p: RbNode, c: bool, ghost z: Zip, ghost t: Tree)
    requires Focus(Snap(ns), z, t) && z.In? && z.n == p && p in ns
    modifies p`red
    ensures Focus(Snap(ns), z.(red := c), t)
  {
    hide Focus, Mk;
    FocusUp(Snap(ns), z, t);
    MkFork(z.d, z.red, t, z.n, z.sib);
    Paint(ns, p, c, z.up, Mk(z.d, z.red, t, z.n, z.sib));
    FocusDown(Snap(ns), z.up, z.d, c, t, z.n, z.sib);
  }

  /** The place of the focus after its red sibling was lifted above its parent. */
  ghost function Lowered(z: Zip): Zip
    requires z.In? && z.sib.Fork?
  {
    In(z.d, true, z.n, Near(z.d, z.sib), In(z.d, false, z.sib.n, Far(z.d, z.sib), z.up))
  }

  lemma {:induction false} LoweredTurn(z: Zip, t: Tree)
    requires z.In? && z.sib.Fork?
    ensures var u := Mk(z.d, true, t, z.n, z.sib.(red := false)); var l := Lowered(z);
      && u.Fork? && u.n == z.n && Far(z.d, u).Fork? && Far(z.d, u).n == z.sib.n
      && Turn(z.d, u) == Mk(l.up.d, l.up.red, Mk(l.d, l.red, t, l.n, l.sib), l.up.n, l.up.sib)
      && Inorder(Turn(z.d, u)) == Inorder(Mk(z.d, z.red, t, z.n, z.sib))
  {
    var u := Mk(z.d, true, t, z.n, z.sib.(red := false));
    TurnRow(z.d, u);
    assert Inorder(z.sib.(red := false)) == Inorder(z.sib);
  }

  lemma {:induction false} LoweredRules(z: Zip, t: Tree)
    requires Short(z, t) && z.In? && !IsRed(t) && IsRed(z.sib)
    ensures Short(Lowered(z), t) && !IsRed(Near(z.d, z.sib))
    ensures Inorder(Plug(Lowered(z), t)) == Inorder(Plug(z, t))
  {
    Sibling(z, t);
    LoweredTurn(z, t);
    var l := Lowered(z);
    assert Plug(l, t) == Plug(z.up, Mk(l.up.d, l.up.red, Mk(l.d, l.red, t, l.n, l.sib), l.up.n, l.up.sib));
    PlugSame(z.up, Mk(l.up.d, l.up.red, Mk(l.d, l.red, t, l.n, l.sib), l.up.n, l.up.sib),
        Mk(z.d, z.red, t, z.n, z.sib));
    assert ZRb(l.up, Bh(t) + 1, true);
  }

  /** Gets a black sibling: a red one is lifted above the parent. */
  method BlackSibling(ghost ns: set<RbNode>, root: RbNode, parent: RbNode, d: bool, ghost z: Zip, ghost t: Tree)
    returns (root': RbNode, other: RbNode, ghost z': Zip)
    requires Focus(Snap(ns), z, t) && Short(z, t) && z.In? && !IsRed(t) && z.n == parent && z.d == d && parent in ns
    requires root == ZRoot(z, Root(t))
    modifies ns
    ensures Focus(Snap(ns), z', t) && Short(z', t) && z'.In? && z'.n == parent && z'.d == d
    ensures root' == ZRoot(z', Root(t))
    ensures z'.sib.Fork? && !IsRed(z'.sib) && z'.sib.n == other && other in ns
    ensures Inorder(Plug(z', t)) == Inorder(Plug(z, t))
    ensures z' == z || (z'.red && Depth(z') == Depth(z) + 1)
  {
    hide Focus, Short, Inorder, Plug, Mk, Turn, Rb, Bh, ZRb, Lowered;
    Sibling(z, t);
    Around(Snap(ns), z, t);
    other := parent.Child(!d);
    if !other.red { return root, other, z; }
    PaintSibling(ns, other, false, z, t);
    ghost var z1 := z.(sib := z.sib.(red := false));
    PaintParent(ns, parent, true, z1, t);
    ghost var z2 := z1.(red := true);
    FocusUp(Snap(ns), z2, t);
    LoweredTurn(z, t);
    root' := Rotate(ns, parent, d, root, z.up, Mk(d, true, t, parent, z1.sib));
    z' := Lowered(z);
    LoweredShape(z);
    LoweredRules(z, t);
    FocusDown(Snap(ns), z.up, d, false, Mk(d, true, t, parent, z'.sib), z'.up.n, z'.up.sib);
    FocusDown(Snap(ns), z'.up, d, true, t, parent, z'.sib);
    Sibling(z', t);
    Around(Snap(ns), z', t);
    other := parent.Child(!d);
    RootSame(z.up, parent, z'.up.n);
  }

  lemma {:induction false} LoweredShape(z: Zip)
    requires z.In? && z.sib.Fork?
    ensures var l := Lowered(z);
      && l.In? && l.d == z.d && l.red && l.n == z.n && l.sib == Near(z.d, z.sib) && Depth(l) == Depth(z) + 1
      && l.up == In(z.d, false, z.sib.n, Far(z.d, z.sib), z.up)
      && ZRoot(l, null) == ZRoot(z.up, z.sib.n)
    ensures forall a, b :: ZRoot(Lowered(z), a) == ZRoot(Lowered(z), b)
  {
  }

  /** Both nephews are black: the sibling turns red and the parent lacks the black node. */
  ghost function Pushed(z: Zip, t: Tree): Tree
    requires z.In? && z.sib.Fork?
  {
    Mk(z.d, z.red, t, z.n, z.sib.(red := true))
  }

  lemma {:induction false} PushedRules(z: Zip, t: Tree)
    requires Short(z, t) && z.In? && !IsRed(t) && z.sib.Fork? && !IsRed(z.sib) && !IsRed(z.sib.l) && !IsRed(z.sib.r)
    ensures Short(z.up, Pushed(z, t)) && Inorder(Plug(z.up, Pushed(z, t))) == Inorder(Plug(z, t))
    ensures Pushed(z, t).Fork? && Pushed(z, t).n == z.n && IsRed(Pushed(z, t)) == z.red
  {
    Sibling(z, t);
    var w := z.sib.(red := true);
    assert Rb(w) && Bh(w) == Bh(t) && Inorder(w) == Inorder(z.sib);
    MkRb(z.d, z.red, t, z.n, w);
    WeakerZRb(z.up, Bh(t) + 1 + (if z.red then 0 else 1), z.red);
    PlugSame(z.up, Pushed(z, t), Mk(z.d, z.red, t, z.n, z.sib));
  }

  lemma {:induction false} WeakerZRb(z: Zip, h: int, rd: bool)
    requires ZRb(z, h, rd)
    ensures ZRb(z, h, false)
  {
  }

  /** The sibling with its near nephew lifted above it, so that the far nephew is red. */
  ghost function Nephew(d: bool, w: Tree): Tree
    requires w.Fork? && Near(d, w).Fork?
  {
    var a := Near(d, w);
    Mk(d, false, Near(d, a), a.n, Mk(d, true, Far(d, a), w.n, Far(d, w)))
  }

  lemma {:induction false} NephewRules(d: bool, w: Tree)
    requires w.Fork? && !w.red && Rb(w) && IsRed(Near(d, w)) && !IsRed(Far(d, w))
    ensures var a, u := Near(d, w), Mk(d, true, Near(d, w).(red := false), w.n, Far(d, w));
      && u.Fork? && u.n == w.n && Far(!d, u) == a.(red := false)
      && Turn(!d, u) == Nephew(d, w)
    ensures Rb(Nephew(d, w)) && Bh(Nephew(d, w)) == Bh(w) && Inorder(Nephew(d, w)) == Inorder(w)
    ensures Nephew(d, w).Fork? && !IsRed(Nephew(d, w)) && IsRed(Far(d, Nephew(d, w)))
  {
    var a, b := Near(d, w), Far(d, w);
    MkOf(d, w);
    MkOf(d, a);
    MkRb(d, false, a, w.n, b);
    MkRb(d, true, Near(d, a), a.n, Far(d, a));
    MkRb(d, true, Far(d, a), w.n, b);
    MkRb(d, false, Near(d, a), a.n, Mk(d, true, Far(d, a), w.n, b));
    var u := Mk(d, true, a.(red := false), w.n, b);
    TurnRow(!d, u);
    assert Inorder(a.(red := false)) == Inorder(a);
  }

  /** The parent rotated down, its sibling in its place and colour. */
  ghost function Filled(z: Zip, t: Tree): Tree
    requires z.In? && z.sib.Fork? && Far(z.d, z.sib).Fork?
  {
    Mk(z.d, z.red, Mk(z.d, false, t, z.n, Near(z.d, z.sib)), z.sib.n, Far(z.d, z.sib).(red := false))
  }

  lemma {:induction false} FilledRules(z: Zip, t: Tree)
    requires Short(z, t) && z.In? && !IsRed(t) && z.sib.Fork? && !IsRed(z.sib) && IsRed(Far(z.d, z.sib))
    ensures Proper(Plug(z.up, Filled(z, t))) && Inorder(Plug(z.up, Filled(z, t))) == Inorder(Plug(z, t))
  {
    Sibling(z, t);
    var a, b := Near(z.d, z.sib), Far(z.d, z.sib);
    var b' := b.(red := false);
    MkOf(z.d, z.sib);
    MkRb(z.d, false, a, z.sib.n, b);
    MkRb(z.d, false, t, z.n, a);
    assert Rb(b') && Bh(b') == Bh(b) + 1 && Inorder(b') == Inorder(b);
    MkRb(z.d, z.red, Mk(z.d, false, t, z.n, a), z.sib.n, b');
    PlugRb(z.up, Filled(z, t));
    FilledRow(z, t);
    PlugSame(z.up, Filled(z, t), Mk(z.d, z.red, t, z.n, z.sib));
  }

  lemma {:induction false} FilledRow(z: Zip, t: Tree)
    requires z.In? && z.sib.Fork? && Far(z.d, z.sib).Fork?
    ensures Inorder(Filled(z, t)) == Inorder(Mk(z.d, z.red, t, z.n, z.sib))
    ensures var w := Mk(z.d, z.red, Near(z.d, z.sib), z.sib.n, Far(z.d, z.sib).(red := false));
      var u := Mk(z.d, false, t, z.n, w);
      u.Fork? && u.n == z.n && Far(z.d, u).Fork? && Far(z.d, u).n == z.sib.n && Turn(z.d, u) == Filled(z, t)
  {
    var w := Mk(z.d, z.red, Near(z.d, z.sib), z.sib.n, Far(z.d, z.sib).(red := false));
    TurnRow(z.d, Mk(z.d, false, t, z.n, w));
    MkOf(z.d, z.sib);
    assert Inorder(Far(z.d, z.sib).(red := false)) == Inorder(Far(z.d, z.sib));
    assert Inorder(w) == Inorder(z.sib);
  }

  /** Both nephews are black. */
  method Push(ghost ns: set<RbNode>, other: RbNode, ghost z: Zip, ghost t: Tree)
    requires Focus(Snap(ns), z, t) && z.In? && z.sib.Fork? && z.sib.n == other && other in ns
    modifies ns`red
    ensures Focus(Snap(ns), z.up, Pushed(z, t))
  {
    hide Focus, Mk;
    PaintSibling(ns, other, true, z, t);
    FocusUp(Snap(ns), z.(sib := z.sib.(red := true)), t);
  }

  /** The far nephew is black and the near one red: the near one is lifted. */
  method LiftNephew(ghost ns: set<RbNode>, root: RbNode, other: RbNode, d: bool, ghost z: Zip, ghost t: Tree)
    returns (root': RbNode)
    requires Focus(Snap(ns), z, t) && z.In? && z.d == d && z.sib.Fork? && !z.sib.red && z.sib.n == other && other in ns
    requires Rb(z.sib) && IsRed(Near(d, z.sib)) && !IsRed(Far(d, z.sib))
    modifies ns
    ensures Focus(Snap(ns), z.(sib := Nephew(d, z.sib)), t) && root' == root
  {
    hide Focus, Mk, Turn, Rb, Nephew;
    ghost var w, a := z.sib, Near(d, z.sib);
    Around(Snap(ns), z, t);
    NephewRules(d, w);
    FocusUp(Snap(ns), z, t);
    Mirror(d, z.red, t, z.n, w);
    ghost var zw := In(!d, z.red, z.n, t, z.up);
    FocusDown(Snap(ns), z.up, !d, z.red, w, z.n, t);
    MkOf(d, w);
    FocusDown(Snap(ns), zw, d, w.red, a, w.n, Far(d, w));
    var near := other.Child(d);
    if near != null { Paint(ns, near, false, In(d, w.red, w.n, Far(d, w), zw), a); }
    ghost var a' := a.(red := false);
    FocusDown(Snap(ns), zw, d, w.red, a', w.n, Far(d, w));
    MkFork(d, w.red, a', w.n, Far(d, w));
    Paint(ns, other, true, zw, Mk(d, w.red, a', w.n, Far(d, w)));
    root' := Rotate(ns, other, !d, root, zw, Mk(d, true, a', w.n, Far(d, w)));
    FocusDown(Snap(ns), z.up, !d, z.red, Nephew(d, w), z.n, t);
    Mirror(d, z.red, t, z.n, Nephew(d, w));
    FocusDown(Snap(ns), z.up, d, z.red, t, z.n, Nephew(d, w));
  }

  /** The far nephew is red: colours move and the parent is rotated down. */
  method FillIn(ghost ns: set<RbNode>, root: RbNode, parent: RbNode, other: RbNode, d: bool, ghost z: Zip,
        ghost t: Tree) returns (root': RbNode)
    requires Focus(Snap(ns), z, t) && z.In? && z.d == d && z.n == parent && parent in ns
    requires z.sib.Fork? && z.sib.n == other && other in ns && Far(d, z.sib).Fork?
    modifies ns
    ensures Focus(Snap(ns), z.up, Filled(z, t)) && root' == if z.up.Top? then other else root
  {
    hide Focus, Mk, Turn, Filled;
    ghost var w, b := z.sib, Far(d, z.sib);
    Around(Snap(ns), z, t);
    PaintSibling(ns, other, parent.red, z, t);
    ghost var z1 := z.(sib := w.(red := z.red));
    PaintParent(ns, parent, false, z1, t);
    ghost var z2, w2 := z1.(red := false), w.(red := z.red);
    Around(Snap(ns), z2, t);
    FocusUp(Snap(ns), z2, t);
    Mirror(d, false, t, parent, w2);
    ghost var zw := In(!d, false, parent, t, z.up);
    FocusDown(Snap(ns), z.up, !d, false, w2, parent, t);
    MkOf(!d, w2);
    FocusDown(Snap(ns), zw, !d, z.red, b, w.n, Near(d, w));
    var far := other.Child(!d);
    if far != null { Paint(ns, far, false, In(!d, z.red, w.n, Near(d, w), zw), b); }
    ghost var b' := b.(red := false);
    FocusDown(Snap(ns), zw, !d, z.red, b', w.n, Near(d, w));
    ghost var w3 := Mk(!d, z.red, b', w.n, Near(d, w));
    Mirror(!d, z.red, b', w.n, Near(d, w));
    FocusDown(Snap(ns), z.up, !d, false, w3, parent, t);
    Mirror(!d, false, w3, parent, t);
    FilledRow(z, t);
    root' := Rotate(ns, parent, d, root, z.up, Mk(d, false, t, parent, w3));
  }

  /** One round of the loop; `done` means all rules hold again. */
  method Round(ghost ns: set<RbNode>, root: RbNode, node: RbNode?, parent: RbNode, ghost z: Zip, ghost t: Tree)
    returns (done: bool, root': RbNode, node': RbNode, parent': RbNode?, ghost z': Zip, ghost t': Tree)
    requires Focus(Snap(ns), z, t) && Short(z, t) && z.In? && !IsRed(t)
    requires node == Root(t) && parent == z.n && parent in ns && root == ZRoot(z, node)
    modifies ns
    ensures Focus(Snap(ns), z', t') && Short(z', t') && node' == Root(t') && root' == ZRoot(z', node')
    ensures Inorder(Plug(z', t')) == Inorder(Plug(z, t)) && node' in ns
    ensures done ==> z'.Top? && Proper(t') && node' == root'
    ensures !done ==> parent' == ZParent(z') && (IsRed(t') || Depth(z') < Depth(z))
  {
    hide Focus, Short, Inorder, Plug, Mk, Rb, Bh, ZRb, Pushed, Filled, Nephew, Proper;
    Sibling(z, t);
    Around(Snap(ns), z, t);
    var d := parent.left == node;
    var other;
    ghost var z1;
    root', other, z1 := BlackSibling(ns, root, parent, d, z, t);
    done, root', node', parent', z', t' := RoundBlack(ns, root', parent, other, d, z1, t);
  }

  /** The round once the sibling is black. */
  method RoundBlack(ghost ns: set<RbNode>, root: RbNode, parent: RbNode, other: RbNode, d: bool, ghost z: Zip,
        ghost t: Tree)
    returns (done: bool, root': RbNode, node': RbNode, parent': RbNode?, ghost z': Zip, ghost t': Tree)
    requires Focus(Snap(ns), z, t) && Short(z, t) && z.In? && !IsRed(t) && z.d == d
    requires parent == z.n && parent in ns && root == ZRoot(z, Root(t))
    requires z.sib.Fork? && !IsRed(z.sib) && z.sib.n == other && other in ns
    modifies ns
    ensures Focus(Snap(ns), z', t') && Short(z', t') && node' == Root(t') && root' == ZRoot(z', node')
    ensures Inorder(Plug(z', t')) == Inorder(Plug(z, t)) && node' in ns
    ensures done ==> z'.Top? && Proper(t') && node' == root'
    ensures !done ==> parent' == ZParent(z') && z' == z.up && IsRed(t') == z.red
  {
    hide Focus, Short, Inorder, Plug, Mk, Rb, Bh, ZRb, Pushed, Filled, Nephew, Proper;
    Sibling(z, t);
    Around(Snap(ns), z, t);
    Sides(d, z.sib);
    root' := root;
    if (other.left == null || !other.left.red) && (other.right == null || !other.right.red) {
      Push(ns, other, z, t);
      PushedRules(z, t);
      z', t' := z.up, Pushed(z, t);
      node', done := parent, false;
      UpField(Snap(ns), z', t');
      parent' := node'.parent;
      return;
    }
    ghost var z1 := z;
    var o := other;
    if other.Child(!d) == null || !other.Child(!d).red {
      root' := LiftNephew(ns, root', other, d, z, t);
      NephewShort(z, t);
      z1 := z.(sib := Nephew(z.d, z.sib));
      Around(Snap(ns), z1, t);
      o := parent.Child(!d);
    }
    root' := FillIn(ns, root', parent, o, d, z1, t);
    FilledRules(z1, t);
    FocusWhole(Snap(ns), z1.up, Filled(z1, t));
    z', t', done := Top, Plug(z1.up, Filled(z1, t)), true;
    FilledRoot(Snap(ns), z1, t);
    node', parent' := root', null;
  }

  lemma {:induction false} Sides(d: bool, w: Tree)
    requires w.Fork?
    ensures {Near(d, w), Far(d, w)} == {w.l, w.r} && Far(d, w) == Near(!d, w)
  {
  }

  lemma {:induction false} UpField(m: Fields, z: Zip, t: Tree)
    requires Focus(m, z, t) && t.Fork?
    ensures t.n in m && m[t.n].parent == ZParent(z) && m[t.n].red == t.red
  {
  }

  lemma {:induction false} NephewShort(z: Zip, t: Tree)
    requires Short(z, t) && z.In? && !IsRed(t) && z.sib.Fork? && !IsRed(z.sib)
    requires IsRed(Near(z.d, z.sib)) && !IsRed(Far(z.d, z.sib))
    ensures var z' := z.(sib := Nephew(z.d, z.sib));
      && Short(z', t) && z'.sib.Fork? && !IsRed(z'.sib) && IsRed(Far(z'.d, z'.sib))
      && Inorder(Plug(z', t)) == Inorder(Plug(z, t)) && ZRoot(z', Root(t)) == ZRoot(z, Root(t))
  {
    hide Inorder, Plug, Nephew;
    Sibling(z, t);
    NephewRules(z.d, z.sib);
    PlugSib(z, t, Nephew(z.d, z.sib));
  }

  lemma {:induction false} PlugSib(z: Zip, t: Tree, w: Tree)
    requires z.In? && Inorder(w) == Inorder(z.sib)
    ensures Inorder(Plug(z.(sib := w), t)) == Inorder(Plug(z, t))
  {
    PlugSame(z.up, Mk(z.d, z.red, t, z.n, w), Mk(z.d, z.red, t, z.n, z.sib));
  }

  lemma {:induction false} FilledRoot(m: Fields, z: Zip, t: Tree)
    requires z.In? && z.sib.Fork? && Far(z.d, z.sib).Fork? && Focus(m, Top, Plug(z.up, Filled(z, t)))
    requires Proper(Plug(z.up, Filled(z, t)))
    ensures var w := Plug(z.up, Filled(z, t));
      && w.Fork? && w.n in m && Root(w) == (if z.up.Top? then z.sib.n else ZRoot(z, Root(t)))
      && Short(Top, w) && Plug(Top, w) == w
  {
    PlugRoot(z.up, Filled(z, t));
    PlugFork(z.up, Filled(z, t));
    RootSame(z.up, z.n, z.sib.n);
  }

  /** Whether the focus is the whole tree can be told from the root pointer. */
  lemma {:induction false} AtRoot(m: Fields, z: Zip, t: Tree)
    requires Focus(m, z, t)
    ensures z.Top? <==> Root(t) == ZRoot(z, Root(t))
    ensures z.In? ==> ZRoot(z, Root(t)) != null && z.n in m
    ensures t.Fork? ==> t.n in m && m[t.n].red == t.red
  {
    if z.In? { RootAbove(z, Root(t)); RootIn(t); }
  }

  lemma {:induction false} RootAbove(z: Zip, a: RbNode?)
    requires z.In?
    ensures ZRoot(z, a) != null && ZRoot(z, a) in ZNodes(z)
    decreases z
  {
    if z.up.In? { RootAbove(z.up, z.n); }
  }

  /** Restores all rules after a black node above `node` has gone; the row of nodes stays. */
  method EraseColor(ghost ns: set<RbNode>, root: RbNode?, node: RbNode?, parent: RbNode?, ghost z0: Zip, ghost t0: Tree)
    returns (root': RbNode?, ghost t': Tree)
    requires Focus(Snap(ns), z0, t0) && Short(z0, t0)
    requires node == Root(t0) && parent == ZParent(z0) && root == ZRoot(z0, node)
    modifies ns
    ensures Focus(Snap(ns), Top, t') && Proper(t') && root' == Root(t')
    ensures Inorder(t') == Inorder(Plug(z0, t0))
  {
    hide Focus, Short, Inorder, Plug, Proper;
    root' := root;
    var n, p := node, parent;
    ghost var z, t := z0, t0;
    AtRoot(Snap(ns), z, t);
    while (n == null || !n.red) && n != root'
      invariant Focus(Snap(ns), z, t) && Short(z, t) && n == Root(t) && p == ZParent(z) && root' == ZRoot(z, n)
      invariant n != null ==> n in ns && n.red == t.red
      invariant z.Top? <==> n == root'
      invariant z.In? ==> z.n in ns && root' != null
      invariant Inorder(Plug(z, t)) == Inorder(Plug(z0, t0))
      decreases if IsRed(t) then 0 else 1 + Depth(z)
    {
      var done;
      done, root', n, p, z, t := Round(ns, root', n, p, z, t);
      AtRoot(Snap(ns), z, t);
      if done { break; }
    }
    t' := LastPaint(ns, root', n, z, t);
  }

  /** The node in focus turns black. */
  method LastPaint(ghost ns: set<RbNode>, ghost root: RbNode?, n: RbNode?, ghost z: Zip, ghost t: Tree)
    returns (ghost t': Tree)
    requires Focus(Snap(ns), z, t) && Short(z, t) && n == Root(t) && (n != null ==> n in ns) && root == ZRoot(z, n)
    requires (IsRed(t) || z.Top?)
    modifies ns`red
    ensures Focus(Snap(ns), Top, t') && Proper(t') && root == Root(t') && Inorder(t') == Inorder(Plug(z, t))
  {
    hide Focus, Short, Inorder, Plug, Proper;
    ghost var b := if t.Fork? then t.(red := false) else t;
    if n != null { Paint(ns, n, false, z, t); }
    FocusWhole(Snap(ns), z, b);
    t' := Plug(z, b);
    PlugRoot(z, b);
    LastRules(z, t);
  }

  lemma {:induction false} LastRules(z: Zip, t: Tree)
    requires Short(z, t) && (IsRed(t) || z.Top?)
    ensures var b := if t.Fork? then t.(red := false) else t;
      Proper(Plug(z, b)) && Inorder(Plug(z, b)) == Inorder(Plug(z, t))
  {
    var b := if t.Fork? then t.(red := false) else t;
    assert Inorder(b) == Inorder(t);
    PlugSame(z, b, t);
    PlugRb(z, b);
    assert IsRed(t) ==> Bh(b) == Bh(t) + 1;
  }
}
