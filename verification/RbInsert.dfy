/**
 Linking a red leaf and restoring the rules on the way up
 (kernel/ds/rbtree.c, include/ds/rbtree.h).
 */
module RbInsertion {
  import opened RbNodes
  import opened RbShapes
  import opened RbTurns

  /** The subtree in focus is right in itself and has a red root; only its parent may be red too. */
  ghost predicate RedBelow(z: Zip, t: Tree) {
    t.Fork? && t.red && Rb(t) && ZRb(z, Bh(t), false)
  }

  /** A red parent has a black parent of its own. */
  lemma {:induction false} Grandparent(z: Zip, t: Tree)
    requires RedBelow(z, t) && z.In? && z.red
    ensures z.up.In? && !z.up.red && Rb(z.sib) && !IsRed(z.sib) && Bh(z.sib) == Bh(t)
    ensures Rb(z.up.sib) && Bh(z.up.sib) == Bh(t) && ZRb(z.up.up, Bh(t) + 1, false)
  {
    assert ZRb(z.up, Bh(t), true);
  }

  /** The same nodes with uncle and parent black and grandparent red. */
  ghost function Lifted(z: Zip, t: Tree): Tree
    requires z.In? && z.up.In? && z.up.sib.Fork?
  {
    Mk(z.up.d, true, Mk(z.d, false, t, z.n, z.sib), z.up.n, z.up.sib.(red := false))
  }

  lemma {:induction false} LiftedRules(z: Zip, t: Tree)
    requires RedBelow(z, t) && z.In? && z.red && z.up.In? && IsRed(z.up.sib)
    ensures RedBelow(z.up.up, Lifted(z, t))
    ensures Inorder(Plug(z.up.up, Lifted(z, t))) == Inorder(Plug(z, t))
  {
    Grandparent(z, t);
    var u, v := z.up.sib.(red := false), Mk(z.d, false, t, z.n, z.sib);
    MkRb(z.d, false, t, z.n, z.sib);
    MkRb(z.up.d, true, v, z.up.n, u);
    var w := Mk(z.d, z.red, t, z.n, z.sib);
    assert Inorder(v) == Inorder(w) && Inorder(u) == Inorder(z.up.sib);
    assert Inorder(Lifted(z, t)) == Inorder(Mk(z.up.d, z.up.red, w, z.up.n, z.up.sib));
    PlugSame(z.up.up, Lifted(z, t), Mk(z.up.d, z.up.red, w, z.up.n, z.up.sib));
  }

  /** Three new colours. */
  method Lift(ghost ns: set<RbNode>, parent: RbNode, gparent: RbNode, uncle: RbNode, ghost z: Zip, ghost t: Tree)
    requires Focus(Snap(ns), z, t) && z.In? && z.up.In? && z.up.sib.Fork?
    requires parent == z.n && gparent == z.up.n && uncle == z.up.sib.n && {parent, gparent, uncle} <= ns
    modifies ns`red
    ensures Focus(Snap(ns), z.up.up, Lifted(z, t))
  {
    hide Focus, Mk;
    var g := z.up;
    FocusUp(Snap(ns), z, t);
    ghost var w := Mk(z.d, z.red, t, z.n, z.sib);
    FocusUp(Snap(ns), g, w);
    Mirror(g.d, g.red, w, g.n, g.sib);
    FocusDown(Snap(ns), g.up, !g.d, g.red, g.sib, g.n, w);
    Paint(ns, uncle, false, In(!g.d, g.red, g.n, w, g.up), g.sib);
    ghost var u := g.sib.(red := false);
    FocusDown(Snap(ns), g.up, !g.d, g.red, u, g.n, w);
    Mirror(g.d, g.red, w, g.n, u);
    FocusDown(Snap(ns), g.up, g.d, g.red, w, g.n, u);
    MkFork(z.d, z.red, t, z.n, z.sib);
    Paint(ns, parent, false, In(g.d, g.red, g.n, u, g.up), w);
    ghost var v := Mk(z.d, false, t, z.n, z.sib);
    FocusDown(Snap(ns), g.up, g.d, g.red, v, g.n, u);
    MkFork(g.d, g.red, v, g.n, u);
    Paint(ns, gparent, true, g.up, Mk(g.d, g.red, v, g.n, u));
  }

  lemma {:induction false} MkFork(d: bool, red: bool, near: Tree, n: RbNode, far: Tree)
    ensures var t := Mk(d, red, near, n, far);
      && t.Fork? && t.n == n && t.red == red && t.(red := false) == Mk(d, false, near, n, far)
      && t.(red := true) == Mk(d, true, near, n, far)
  {
  }

  /** The grandparent's side of the focus after the last rotation: `low` is red below the black `top`. */
  ghost function Settled(d: bool, low: Tree, top: RbNode, b: Tree, g: RbNode, u: Tree): Tree {
    Mk(d, false, low, top, Mk(d, true, b, g, u))
  }

  /** Black parent, red grandparent, grandparent rotated down. */
  method Settle(ghost ns: set<RbNode>, root: RbNode, parent: RbNode, gparent: RbNode, d: bool,
      ghost low: Tree, ghost b: Tree, ghost u: Tree, ghost up: Zip) returns (root': RbNode)
    requires Focus(Snap(ns), In(d, false, gparent, u, up), Mk(d, true, low, parent, b)) && {parent, gparent} <= ns
    modifies ns
    ensures Focus(Snap(ns), up, Settled(d, low, parent, b, gparent, u))
    ensures root' == if up.Top? then parent else root
  {
    hide Focus, Mk, Turn;
    ghost var v := Mk(d, false, low, parent, b);
    MkFork(d, true, low, parent, b);
    Paint(ns, parent, false, In(d, false, gparent, u, up), Mk(d, true, low, parent, b));
    FocusDown(Snap(ns), up, d, false, v, gparent, u);
    MkFork(d, false, v, gparent, u);
    Paint(ns, gparent, true, up, Mk(d, false, v, gparent, u));
    ghost var t := Mk(d, true, v, gparent, u);
    SettleTurn(d, low, parent, b, gparent, u);
    root' := Rotate(ns, gparent, !d, root, up, t);
  }

  lemma {:induction false} SettleTurn(d: bool, low: Tree, parent: RbNode, b: Tree, g: RbNode, u: Tree)
    ensures var t := Mk(d, true, Mk(d, false, low, parent, b), g, u);
      && t.Fork? && t.n == g && Far(!d, t).Fork? && Far(!d, t).n == parent
      && Turn(!d, t) == Settled(d, low, parent, b, g, u)
  {
  }

  lemma {:induction false} SettledRules(d: bool, low: Tree, top: RbNode, b: Tree, g: RbNode, u: Tree, up: Zip)
    requires IsRed(low) && Rb(low) && Rb(b) && Rb(u) && !IsRed(b) && !IsRed(u) && Bh(b) == Bh(low) == Bh(u)
    requires ZRb(up, Bh(low) + 1, false)
    ensures RedBelow(In(d, false, top, Mk(d, true, b, g, u), up), low)
    ensures Inorder(Settled(d, low, top, b, g, u)) == Inorder(Mk(d, false, Mk(d, true, low, top, b), g, u))
  {
    MkRb(d, true, b, g, u);
    TurnInorder(!d, true, false, u, g, b, top, low, true, false);
    assert Mk(!d, true, u, g, Mk(!d, false, b, top, low)) == Mk(d, true, Mk(d, false, low, top, b), g, u);
    assert Inorder(Mk(d, true, Mk(d, false, low, top, b), g, u))
      == Inorder(Mk(d, false, Mk(d, true, low, top, b), g, u));
  }

  /** The inner grandchild is first rotated outwards. */
  lemma {:induction false} OutwardRules(d: bool, s: Tree, p: RbNode, t: Tree)
    requires Rb(s) && !IsRed(s) && IsRed(t) && Rb(t) && Bh(s) == Bh(t)
    ensures var w := Mk(d, true, s, p, t); w.Fork? && w.n == p && Far(d, w) == t
    ensures var low := Mk(d, true, s, p, Near(d, t));
      && Turn(d, Mk(d, true, s, p, t)) == Mk(d, true, low, t.n, Far(d, t))
      && IsRed(low) && Rb(low) && Bh(low) == Bh(t) && low.n == p
      && Rb(Far(d, t)) && !IsRed(Far(d, t)) && Bh(Far(d, t)) == Bh(t)
    ensures Inorder(Turn(d, Mk(d, true, s, p, t))) == Inorder(Mk(d, true, s, p, t))
  {
    MkOf(d, t);
    MkRb(d, true, Near(d, t), t.n, Far(d, t));
    MkRb(d, true, s, p, Near(d, t));
    TurnRow(d, Mk(d, true, s, p, t));
  }

  /** One round of the fix-up loop: the red pair moves two levels up or is gone. */
  method Round(ghost ns: set<RbNode>, root: RbNode, node: RbNode, ghost z: Zip, ghost t: Tree)
    returns (root': RbNode, node': RbNode, ghost z': Zip, ghost t': Tree)
    requires Focus(Snap(ns), z, t) && RedBelow(z, t) && t.Fork? && t.n == node && node in ns && root == ZRoot(z, node)
    requires z.In? && z.red
    modifies ns
    ensures Focus(Snap(ns), z', t') && RedBelow(z', t') && t'.Fork? && t'.n == node' && node' in ns
    ensures root' == ZRoot(z', node')
    ensures Depth(z') < Depth(z) && Inorder(Plug(z', t')) == Inorder(Plug(z, t))
  {
    hide Focus, RedBelow, Inorder, Plug, Mk, Lifted, Rb, Bh, ZRb;
    ghost var m := Snap(ns);
    Grandparent(z, t);
    RedFork(z, t);
    Reads(m, z, t);
    var parent := node.parent;
    var gparent := parent.parent;
    var d := parent == gparent.left;
    var uncle := gparent.Child(!d);
    if uncle != null && uncle.red {
      Lift(ns, parent, gparent, uncle, z, t);
      LiftedRules(z, t);
      LiftedNode(z, t);
      return root, gparent, z.up.up, Lifted(z, t);
    }
    root', node', z', t' := Outer(ns, root, node, parent, gparent, d, z, t);
  }

  /** The fields the loop reads, in terms of the shape. */
  lemma {:induction false} Reads(m: Fields, z: Zip, t: Tree)
    requires Focus(m, z, t) && t.Fork? && z.In? && z.up.In?
    ensures t.n in m && m[t.n].parent == z.n && z.n in m && m[z.n].parent == z.up.n && z.up.n in m
    ensures OnlyHere(m[z.n], z.d, t.n) && OnlyHere(m[z.up.n], z.up.d, z.n)
    ensures (if z.up.d then m[z.up.n].right else m[z.up.n].left) == Root(z.up.sib)
    ensures z.up.sib.Fork? ==> z.up.sib.n in m && m[z.up.sib.n].red == z.up.sib.red
  {
    assert ZLinked(m, z.up, z.n) && Linked(m, z.up.sib, z.up.n);
    RootIn(t);
    RootIn(z.sib);
    RootIn(z.up.sib);
  }

  lemma {:induction false} LiftedNode(z: Zip, t: Tree)
    requires z.In? && z.up.In? && z.up.sib.Fork?
    ensures Lifted(z, t).Fork? && Lifted(z, t).n == z.up.n && Depth(z.up.up) < Depth(z)
    ensures ZRoot(z, Root(t)) == ZRoot(z.up.up, z.up.n)
  {
  }

  /** The uncle is black: at most two rotations end the fix-up. */
  method Outer(ghost ns: set<RbNode>, root: RbNode, node: RbNode, parent: RbNode, gparent: RbNode, d: bool,
        ghost z: Zip, ghost t: Tree)
    returns (root': RbNode, node': RbNode, ghost z': Zip, ghost t': Tree)
    requires Focus(Snap(ns), z, t) && RedBelow(z, t) && t.Fork? && t.n == node && root == ZRoot(z, node)
    requires z.In? && z.red && z.up.In? && !z.up.red && !IsRed(z.up.sib)
    requires parent == z.n && gparent == z.up.n && d == z.up.d && {node, parent, gparent} <= ns
    modifies ns
    ensures Focus(Snap(ns), z', t') && RedBelow(z', t') && t'.Fork? && t'.n == node' && node' in ns
    ensures root' == ZRoot(z', node')
    ensures Depth(z') < Depth(z) && Inorder(Plug(z', t')) == Inorder(Plug(z, t))
  {
    hide Focus, RedBelow, Inorder, Plug, Mk, Rb, Bh, ZRb, Settled, Turn;
    ghost var g, s, u := z.up, z.sib, z.up.sib;
    RedFork(z, t);
    Reads(Snap(ns), z, t);
    Grandparent(z, t);
    FocusUp(Snap(ns), z, t);
    ghost var w := Mk(z.d, true, t, parent, s);
    ghost var low, b;
    var top, r1;
    if parent.Child(!d) == node {
      Mirror(z.d, true, t, parent, s);
      OutwardRules(d, s, parent, t);
      r1 := Rotate(ns, parent, d, root, g, w);
      node', top := parent, node;
      low, b := Mk(d, true, s, parent, Near(d, t)), Far(d, t);
    } else {
      node', top, r1 := node, parent, root;
      low, b := t, s;
    }
    assert Inorder(Mk(d, true, low, top, b)) == Inorder(w);
    root' := Settle(ns, r1, top, gparent, d, low, b, u, g.up);
    SettledDef(d, low, top, b, gparent, u);
    FocusDown(Snap(ns), g.up, d, false, low, top, Mk(d, true, b, gparent, u));
    RootSame(g.up, gparent, top);
    SettledRules(d, low, top, b, gparent, u, g.up);
    z', t' := In(d, false, top, Mk(d, true, b, gparent, u), g.up), low;
    OuterRow(z, t, low, top, b);
  }

  lemma {:induction false} RootSame(z: Zip, a: RbNode, b: RbNode)
    ensures z.In? ==> ZRoot(z, a) == ZRoot(z, b)
  {
  }

  lemma {:induction false} RedFork(z: Zip, t: Tree)
    requires RedBelow(z, t)
    ensures IsRed(t) && Rb(t)
  {
  }

  lemma {:induction false} SettledDef(d: bool, low: Tree, top: RbNode, b: Tree, g: RbNode, u: Tree)
    ensures Settled(d, low, top, b, g, u) == Mk(d, false, low, top, Mk(d, true, b, g, u))
  {
  }

  lemma {:induction false} OuterRow(z: Zip, t: Tree, low: Tree, top: RbNode, b: Tree)
    requires z.In? && z.up.In? && z.red && !z.up.red
    requires Inorder(Mk(z.up.d, true, low, top, b)) == Inorder(Mk(z.d, true, t, z.n, z.sib))
    requires Inorder(Settled(z.up.d, low, top, b, z.up.n, z.up.sib))
      == Inorder(Mk(z.up.d, false, Mk(z.up.d, true, low, top, b), z.up.n, z.up.sib))
    ensures Inorder(Plug(In(z.up.d, false, top, Mk(z.up.d, true, b, z.up.n, z.up.sib), z.up.up), low))
      == Inorder(Plug(z, t))
  {
    var d, g, u := z.up.d, z.up.n, z.up.sib;
    var w, w' := Mk(z.d, true, t, z.n, z.sib), Mk(d, true, low, top, b);
    assert Inorder(Mk(d, false, w, g, u)) == Inorder(Mk(d, false, w', g, u));
    PlugSame(z.up.up, Settled(d, low, top, b, g, u), Mk(d, false, w, g, u));
  }

  /** Restores all rules after the red `node` was linked; the row of nodes stays. */
  method InsertColor(ghost ns: set<RbNode>, root: RbNode, node: RbNode, ghost z0: Zip, ghost t0: Tree)
    returns (root': RbNode, ghost t': Tree)
    requires Focus(Snap(ns), z0, t0) && RedBelow(z0, t0) && t0.Fork? && t0.n == node && node in ns
    requires root == ZRoot(z0, node)
    modifies ns
    ensures Focus(Snap(ns), Top, t') && Proper(t') && root' == Root(t')
    ensures Inorder(t') == Inorder(Plug(z0, t0))
  {
    hide Focus, RedBelow, Inorder, Plug, Proper;
    root' := root;
    var n := node;
    ghost var z, t := z0, t0;
    ParentField(Snap(ns), z, t);
    while n.parent != null && n.parent.red
      invariant Focus(Snap(ns), z, t) && RedBelow(z, t) && t.Fork? && t.n == n && n in ns && root' == ZRoot(z, n)
      invariant Inorder(Plug(z, t)) == Inorder(Plug(z0, t0))
      invariant n.parent == ZParent(z) && (z.In? ==> z.n in ns && z.n.red == z.red)
      decreases Depth(z)
    {
      root', n, z, t := Round(ns, root', n, z, t);
      ParentField(Snap(ns), z, t);
    }
    t' := Blackened(ns, root', z, t);
  }

  lemma {:induction false} ParentField(m: Fields, z: Zip, t: Tree)
    requires Focus(m, z, t) && RedBelow(z, t)
    ensures t.Fork? && t.n in m && m[t.n].parent == ZParent(z) && (z.In? ==> z.n in m && m[z.n].red == z.red)
  {
  }

  /** The root of the tree turns black. */
  method Blackened(ghost ns: set<RbNode>, root: RbNode, ghost z: Zip, ghost t: Tree) returns (ghost t': Tree)
    requires Focus(Snap(ns), z, t) && RedBelow(z, t) && root == ZRoot(z, t.n) && (z.In? ==> !z.red)
    modifies ns`red
    ensures Focus(Snap(ns), Top, t') && Proper(t') && root == Root(t') && Inorder(t') == Inorder(Plug(z, t))
  {
    hide Focus, RedBelow, Inorder, Plug, Proper;
    ghost var w := Plug(z, t);
    FocusWhole(Snap(ns), z, t);
    PlugRoot(z, t);
    ParentField(Snap(ns), z, t);
    WholeIn(Snap(ns), w);
    Paint(ns, root, false, Top, w);
    t' := w.(red := false);
    BlackRules(z, t);
  }

  lemma {:induction false} WholeIn(m: Fields, t: Tree)
    requires Focus(m, Top, t) && t.Fork?
    ensures t.n in m
  {
  }

  lemma {:induction false} BlackRules(z: Zip, t: Tree)
    requires RedBelow(z, t) && (z.In? ==> !z.red)
    ensures var w := Plug(z, t);
      w.Fork? && Proper(w.(red := false)) && Inorder(w.(red := false)) == Inorder(w)
  {
    PlugRb(z, t);
    PlugRoot(z, t);
    var w := Plug(z, t);
    if z.In? {
      assert ZRb(z, Bh(t), true);
      PlugFork(z, t);
      assert w.(red := false) == w;
    }
  }

  lemma {:induction false} PlugFork(z: Zip, t: Tree)
    requires t.Fork?
    ensures Plug(z, t).Fork?
    decreases z
  {
    if z.In? { PlugFork(z.up, Mk(z.d, z.red, t, z.n, z.sib)); }
  }
}
