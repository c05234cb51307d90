/**
 The red-black rules, and the two writes every fix-up is made of: a new colour
 and a rotation (kernel/ds/rbtree.c).
 */
module RbTurns {
  import opened RbNodes
  import opened RbShapes

  ghost predicate IsRed(t: Tree) { t.Fork? && t.red }

  /** Black nodes on the way down the left edge; in a proper tree, on every way down. */
  ghost function Bh(t: Tree): nat { if t.Leaf? then 0 else Bh(t.l) + if t.red then 0 else 1 }

  /** No red node has a red child and all ways down have the same number of black nodes. */
  ghost predicate Rb(t: Tree) {
    t.Fork? ==> Rb(t.l) && Rb(t.r) && Bh(t.l) == Bh(t.r) && (t.red ==> !IsRed(t.l) && !IsRed(t.r))
  }

  /** The rules of a whole tree: its root is black too. */
  ghost predicate Proper(t: Tree) { Rb(t) && !IsRed(t) }

  /** The surroundings suit a subtree of black height `h`, with a red root if `rd`. */
  ghost predicate ZRb(z: Zip, h: int, rd: bool) {
    if z.Top? then !rd
    else
      && Rb(z.sib) && Bh(z.sib) == h && (z.red ==> !rd && !IsRed(z.sib))
      && ZRb(z.up, h + (if z.red then 0 else 1), z.red)
  }

  lemma {:induction false} MkRb(d: bool, red: bool, near: Tree, n: RbNode, far: Tree)
    ensures Rb(Mk(d, red, near, n, far)) <==>
      Rb(near) && Rb(far) && Bh(near) == Bh(far) && (red ==> !IsRed(near) && !IsRed(far))
    ensures Bh(near) == Bh(far) ==> Bh(Mk(d, red, near, n, far)) == Bh(near) + if red then 0 else 1
    ensures IsRed(Mk(d, red, near, n, far)) == red
  {
  }

  lemma {:induction false} PlugRb(z: Zip, t: Tree)
    ensures Proper(Plug(z, t)) <==> Rb(t) && ZRb(z, Bh(t), IsRed(t))
    decreases z
  {
    if z.In? {
      hide Rb, Bh, Mk, IsRed;
      var u := Mk(z.d, z.red, t, z.n, z.sib);
      MkRb(z.d, z.red, t, z.n, z.sib);
      PlugRb(z.up, u);
    }
  }

  ghost function Near(d: bool, t: Tree): Tree requires t.Fork? { if d then t.l else t.r }

  ghost function Far(d: bool, t: Tree): Tree requires t.Fork? { if d then t.r else t.l }

  /** The tree with the far child of its root lifted above the root. */
  ghost function Turn(d: bool, t: Tree): Tree
    requires t.Fork? && Far(d, t).Fork?
  {
    var f := Far(d, t);
    Mk(d, f.red, Mk(d, t.red, Near(d, t), t.n, Near(d, f)), f.n, Far(d, f))
  }

  lemma {:induction false} MkOf(d: bool, t: Tree)
    requires t.Fork?
    ensures t == Mk(d, t.red, Near(d, t), t.n, Far(d, t))
  {
  }

  lemma {:induction false} TurnRow(d: bool, t: Tree)
    requires t.Fork? && Far(d, t).Fork?
    ensures Inorder(Turn(d, t)) == Inorder(t)
  {
    hide Inorder;
    var f := Far(d, t);
    TurnInorder(d, t.red, f.red, Near(d, t), t.n, Near(d, f), f.n, Far(d, f), t.red, f.red);
  }

  method Paint(ghost ns: set<RbNode>, x: RbNode, c: bool, ghost z: Zip, ghost t: Tree)
    requires Focus(Snap(ns), z, t) && t.Fork? && t.n == x && x in ns
    modifies x`red
    ensures Focus(Snap(ns), z, t.(red := c))
  {
    hide Focus;
    ghost var m := Snap(ns);
    x.red := c;
    assert Snap(ns) == m[x := m[x].(red := c)];
    Painted(m, Snap(ns), z, t, c);
  }

  /** `x` is the child in direction `d` and not the other one. */
  ghost predicate OnlyHere(r: Rec, d: bool, x: RbNode) {
    (if d then r.left else r.right) == x && (if d then r.right else r.left) != x
  }

  /** What the fields say around a rotation. */
  ghost predicate Pivots(m: Fields, z: Zip, d: bool, x: RbNode, b: RbNode?, y: RbNode) {
    && x in m && y in m && x != y && (b != null ==> b in m && b != x && b != y)
    && m[x].parent == ZParent(z) && (if d then m[x].right else m[x].left) == y
    && (if d then m[y].left else m[y].right) == b
    && (z.In? ==> z.n in m && z.n != x && z.n != y && z.n != b && OnlyHere(m[z.n], z.d, x))
  }

  lemma {:induction false} TurnPivots(m: Fields, z: Zip, d: bool, t: Tree)
    requires t.Fork? && Far(d, t).Fork? && Focus(m, z, t)
    ensures Pivots(m, z, d, t.n, Root(Near(d, Far(d, t))), Far(d, t).n)
  {
    hide Nodes, ZNodes, Disj, ZDisj, Linked, ZLinked;
    var f := Far(d, t);
    MkOf(d, t);
    MkOf(d, f);
    RootIn(Near(d, f));
    RootIn(t);
    RootIn(f);
    ParentIn(z);
    MkApart(d, t.red, Near(d, t), t.n, f);
    MkApart(d, f.red, Near(d, f), f.n, Far(d, f));
    MkLinked(m, d, t.red, Near(d, t), t.n, f, ZParent(z));
    MkLinked(m, d, f.red, Near(d, f), f.n, Far(d, f), t.n);
    NearIn(m, Near(d, f), f.n);
    ParentLinks(m, z, t.n);
  }

  lemma {:induction false} NearIn(m: Fields, t: Tree, par: RbNode?)
    requires Linked(m, t, par)
    ensures t.Fork? ==> t.n in m
  {
  }

  lemma {:induction false} ParentLinks(m: Fields, z: Zip, x: RbNode)
    requires ZLinked(m, z, x) && x !in ZNodes(z)
    ensures z.In? ==> z.n in m && OnlyHere(m[z.n], z.d, x)
  {
    if z.In? { RootIn(z.sib); }
  }

  /** Rotation to the left for d true, to the right otherwise. */
  method Rotate(ghost ns: set<RbNode>, x: RbNode, d: bool, root: RbNode, ghost z: Zip, ghost t: Tree)
    returns (root': RbNode)
    requires t.Fork? && t.n == x && Far(d, t).Fork? && Focus(Snap(ns), z, t)
    modifies ns
    ensures Focus(Snap(ns), z, Turn(d, t)) && root' == if z.Top? then Far(d, t).n else root
  {
    hide Focus, Turn, Mk;
    ghost var m, f := Snap(ns), Far(d, t);
    TurnPivots(m, z, d, t);
    root' := RotatePointers(ns, x, d, root, z, Near(d, f));
    Turned(m, Snap(ns), z, d, t.red, f.red, Near(d, t), x, Near(d, f), f.n, Far(d, f)) by {
      MkOf(d, t);
      MkOf(d, f);
    }
    assert Turn(d, t) == Mk(d, f.red, Mk(d, t.red, Near(d, t), t.n, Near(d, f)), f.n, Far(d, f)) by { TurnDef(d, t); }
  }

  lemma {:induction false} TurnDef(d: bool, t: Tree)
    requires t.Fork? && Far(d, t).Fork?
    ensures var f := Far(d, t);
      Turn(d, t) == Mk(d, f.red, Mk(d, t.red, Near(d, t), t.n, Near(d, f)), f.n, Far(d, f))
  {
  }

  method RotatePointers(ghost ns: set<RbNode>, x: RbNode, d: bool, root: RbNode, ghost z: Zip, ghost bt: Tree)
    returns (root': RbNode)
    requires x in ns && x.Child(!d) != null && Pivots(Snap(ns), z, d, x, Root(bt), x.Child(!d))
    modifies ns
    ensures Turns(old(Snap(ns)), Snap(ns), z, d, x, bt, old(x.Child(!d)))
    ensures root' == if z.Top? then old(x.Child(!d)) else root
  {
    root' := root;
    var y := x.Child(!d);
    var b, p := y.Child(d), x.parent;
    assert b == Root(bt) && p == ZParent(z);
    x.SetChild(!d, b);
    if b != null { b.parent := x; }
    y.SetChild(d, x);
    y.parent := p;
    if p != null {
      NewChild(p, d, x, y, z.d);
    } else {
      root' := y;
    }
    x.parent := y;
  }

  /** The child pointer of `p` that holds `x`, looked for in direction `d` first, now holds `y`. */
  method NewChild(p: RbNode, d: bool, x: RbNode, y: RbNode, ghost e: bool)
    requires OnlyHere(RecOf(p), e, x)
    modifies p`left, p`right
    ensures RecOf(p) == WithChild(old(RecOf(p)), e, y)
  {
    if x == p.Child(d) { p.SetChild(d, y); } else { p.SetChild(!d, y); }
  }
}
