/**
 Taking a node out of the links, putting another in its place, linking a leaf,
 and finding the way to a node (kernel/ds/rbtree.c).
 */
module RbSplices {
  import opened RbNodes
  import opened RbShapes
  import opened RbTurns

  /** The fields after `n` was bypassed: its parent and its only child `ch` point at each other. */
  ghost predicate Splices(m: Fields, m': Fields, z: Zip, n: RbNode, ch: Tree) {
    && m'.Keys == m.Keys - {n}
    && (ch.Fork? ==> ch.n in m && ch.n in m' && m'[ch.n] == m[ch.n].(parent := ZParent(z)))
    && Swapped(m, m', z, Root(ch))
    && forall x :: x in m' && x != Root(ch) && x != ZParent(z) ==> x in m && m'[x] == m[x]
  }

  ghost predicate OnlyChild(t: Tree, ch: Tree) {
    t.Fork? && ((t.l.Leaf? && t.r == ch) || (t.r.Leaf? && t.l == ch))
  }

  lemma {:induction false} Spliced(m: Fields, m': Fields, z: Zip, t: Tree, ch: Tree)
    requires Focus(m, z, t) && OnlyChild(t, ch) && Splices(m, m', z, t.n, ch)
    ensures Focus(m', z, ch)
  {
    hide Linked, ZLinked, Disj, ZDisj, ZNodes, Nodes;
    OnlyChildParts(m, z, t, ch);
    RootIn(ch);
    ParentIn(z);
    LinkedRehung(m, m', ch, t.n, ZParent(z));
    ZLinkedRehung(m, m', z, t.n, Root(ch));
  }

  lemma {:induction false} OnlyChildParts(m: Fields, z: Zip, t: Tree, ch: Tree)
    requires Focus(m, z, t) && OnlyChild(t, ch)
    ensures Nodes(t) == Nodes(ch) + {t.n} && t.n !in Nodes(ch) && Disj(ch) && Linked(m, ch, t.n)
    ensures t.n in m && m[t.n].parent == ZParent(z) && (z.In? ==> z.n != t.n)
  {
  }

  /** Bypasses `node`, whose only child is `child`. */
  method SpliceOut(ghost ns: set<RbNode>, root: RbNode, node: RbNode, child: RbNode?, ghost z: Zip, ghost t: Tree,
        ghost ch: Tree)
    returns (root': RbNode?)
    requires Focus(Snap(ns), z, t) && OnlyChild(t, ch) && t.n == node && child == Root(ch)
    modifies ns - {node}
    ensures Focus(Snap(ns - {node}), z, ch) && root' == if z.Top? then child else root
  {
    hide Focus, Linked, ZLinked, Disj, ZDisj, ZNodes, Nodes;
    ghost var m := Snap(ns);
    SplicePointers(m, z, t, ch);
    root' := root;
    var parent := node.parent;
    if child != null { child.parent := parent; }
    if parent != null {
      if parent.left == node { parent.left := child; } else { parent.right := child; }
    } else {
      root' := child;
    }
    Spliced(m, Snap(ns - {node}), z, t, ch);
  }

  lemma {:induction false} SplicePointers(m: Fields, z: Zip, t: Tree, ch: Tree)
    requires Focus(m, z, t) && OnlyChild(t, ch)
    ensures t.n in m && m[t.n].parent == ZParent(z) && (ch.Fork? ==> ch.n in m && ch.n != t.n)
    ensures z.In? ==> z.n in m && z.n != t.n && OnlyHere(m[z.n], z.d, t.n)
    ensures z.In? && ch.Fork? ==> z.n != ch.n
  {
    hide Linked, ZLinked, Disj, ZDisj, ZNodes, Nodes;
    OnlyChildParts(m, z, t, ch);
    NearIn(m, ch, t.n);
    RootIn(ch);
    RootIn(t);
    ParentIn(z);
    ParentLinks(m, z, t.n);
  }

  /** The fields after `s` took over the place, colour and links of `o`. */
  ghost predicate Replaces(m: Fields, m': Fields, z: Zip, o: RbNode, s: RbNode, l: Tree, r: Tree) {
    && s !in m && o in m && m'.Keys == m.Keys - {o} + {s} && m'[s] == m[o]
    && (l.Fork? ==> l.n in m && l.n in m' && m'[l.n] == m[l.n].(parent := s))
    && (r.Fork? ==> r.n in m && r.n in m' && m'[r.n] == m[r.n].(parent := s))
    && Swapped(m, m', z, s)
    && forall x :: x in m' && x != s && x != Root(l) && x != Root(r) && x != ZParent(z) ==> x in m && m'[x] == m[x]
  }

  lemma {:induction false} ForkParts(m: Fields, z: Zip, c: bool, l: Tree, n: RbNode, r: Tree)
    ensures Focus(m, z, Fork(c, l, n, r)) <==>
      && n in m && m[n] == Rec(ZParent(z), Root(l), Root(r), c)
      && Linked(m, l, n) && Linked(m, r, n) && ZLinked(m, z, n)
      && Disj(l) && Disj(r) && ZDisj(z) && n !in Nodes(l) && n !in Nodes(r) && n !in ZNodes(z)
      && Nodes(l) !! Nodes(r) && Nodes(l) !! ZNodes(z) && Nodes(r) !! ZNodes(z)
      && m.Keys == Nodes(l) + Nodes(r) + {n} + ZNodes(z)
  {
    var t := Fork(c, l, n, r);
    assert Nodes(t) == Nodes(l) + {n} + Nodes(r);
  }

  lemma {:induction false} Replaced(m: Fields, m': Fields, z: Zip, c: bool, l: Tree, o: RbNode, r: Tree, s: RbNode)
    requires Focus(m, z, Fork(c, l, o, r)) && Replaces(m, m', z, o, s, l, r)
    ensures Focus(m', z, Fork(c, l, s, r))
  {
    hide Linked, ZLinked, Disj, ZDisj, ZNodes, Nodes, Focus;
    ForkParts(m, z, c, l, o, r);
    ForkParts(m', z, c, l, s, r);
    RootIn(l);
    RootIn(r);
    ParentIn(z);
    LinkedRehung(m, m', l, o, s);
    LinkedRehung(m, m', r, o, s);
    ZLinkedRehung(m, m', z, o, s);
  }

  /** What the fields say around a replacement. */
  ghost predicate Spots(m: Fields, z: Zip, o: RbNode, l: RbNode?, r: RbNode?, red: bool) {
    && o in m && m[o] == Rec(ZParent(z), l, r, red)
    && (z.In? ==> z.n in m && z.n != o && OnlyHere(m[z.n], z.d, o))
    && (l != null ==> l in m && l != o && l != ZParent(z))
    && (r != null ==> r in m && r != o && r != ZParent(z) && r != l)
  }

  /** `node`, which is not in the tree, takes the place of `old'`, which has a left child. */
  method Replace(ghost ns: set<RbNode>, root: RbNode, old': RbNode, node: RbNode, ghost z: Zip, ghost t: Tree)
    returns (root': RbNode)
    requires Focus(Snap(ns), z, t) && t.Fork? && t.l.Fork? && t.n == old' && node !in ns
    modifies ns, node
    ensures Focus(Snap(ns - {old'} + {node}), z, t.(n := node)) && root' == if z.Top? then node else root
  {
    hide Focus, Linked, ZLinked, Disj, ZDisj, ZNodes, Nodes, Replaces;
    ghost var m := Snap(ns);
    ReplacePointers(m, z, t);
    root' := TakePlace(ns, root, old', node, z, t.l, t.r, t.red);
    Replaced(m, Snap(ns - {old'} + {node}), z, t.red, t.l, old', t.r, node);
  }

  method TakePlace(ghost ns: set<RbNode>, root: RbNode, old': RbNode, node: RbNode, ghost z: Zip, ghost l: Tree,
        ghost r: Tree, ghost red: bool)
    returns (root': RbNode)
    requires Spots(Snap(ns), z, old', Root(l), Root(r), red) && l.Fork? && node !in ns
    modifies ns, node
    ensures Replaces(old(Snap(ns)), Snap(ns - {old'} + {node}), z, old', node, l, r)
    ensures root' == if z.Top? then node else root
  {
    CopyFields(ns, old', node);
    root' := HangBelow(ns, root, old', node, z);
    old'.left.parent := node;
    if old'.right != null { old'.right.parent := node; }
  }

  method CopyFields(ghost ns: set<RbNode>, old': RbNode, node: RbNode)
    requires node !in ns && old' in ns
    modifies node
    ensures Snap(ns) == old(Snap(ns)) && RecOf(node) == RecOf(old')
  {
    node.parent := old'.parent;
    node.red := old'.red;
    node.right := old'.right;
    node.left := old'.left;
  }

  /** The parent of `old'`, or the root pointer, now points at `node`. */
  method HangBelow(ghost ns: set<RbNode>, root: RbNode, old': RbNode, node: RbNode, ghost z: Zip)
    returns (root': RbNode)
    requires old' in ns && old'.parent == ZParent(z)
    requires (z.In? ==> z.n in ns && z.n != old' && OnlyHere(RecOf(z.n), z.d, old'))
    modifies if old'.parent != null then {old'.parent} else {}
    ensures z.In? ==> RecOf(z.n) == WithChild(old(RecOf(z.n)), z.d, node)
    ensures root' == if z.Top? then node else root
  {
    root' := root;
    if old'.parent != null {
      if old'.parent.left == old' { old'.parent.left := node; } else { old'.parent.right := node; }
    } else {
      root' := node;
    }
  }

  lemma {:induction false} ReplacePointers(m: Fields, z: Zip, t: Tree)
    requires Focus(m, z, t) && t.Fork?
    ensures Spots(m, z, t.n, Root(t.l), Root(t.r), t.red)
  {
    hide Linked, ZLinked, Disj, ZDisj, ZNodes, Nodes, Focus;
    ForkParts(m, z, t.red, t.l, t.n, t.r);
    NearIn(m, t.l, t.n);
    NearIn(m, t.r, t.n);
    RootIn(t.l);
    RootIn(t.r);
    ParentIn(z);
    ParentLinks(m, z, t.n);
  }

  /** The fields after the new red leaf `n` was linked at the focus. */
  ghost predicate Links(m: Fields, m': Fields, z: Zip, n: RbNode) {
    && n !in m && m'.Keys == m.Keys + {n} && m'[n] == Rec(ZParent(z), null, null, true)
    && Swapped(m, m', z, n)
    && forall x :: x in m && x != ZParent(z) ==> m'[x] == m[x]
  }

  lemma {:induction false} LeafLinked(m: Fields, m': Fields, z: Zip, n: RbNode)
    requires Focus(m, z, Leaf) && Links(m, m', z, n)
    ensures Focus(m', z, Fork(true, Leaf, n, Leaf))
  {
    hide ZLinked, ZDisj, ZNodes;
    ParentIn(z);
    ZLinkedRehung(m, m', z, null, n);
    ForkParts(m', z, true, Leaf, n, Leaf);
  }

  /** Links `n` as a red leaf below `parent`, or as the root. */
  method LinkNode(ghost ns: set<RbNode>, root: RbNode?, n: RbNode, parent: RbNode?, d: bool, ghost z: Zip)
    returns (root': RbNode)
    requires Focus(Snap(ns), z, Leaf) && n !in ns && parent == ZParent(z) && (z.In? ==> z.d == d)
    requires root == ZRoot(z, null)
    modifies ns, n
    ensures Focus(Snap(ns + {n}), z, Fork(true, Leaf, n, Leaf)) && root' == ZRoot(z, n)
  {
    hide Focus;
    ghost var m := Snap(ns);
    HoleParent(m, z);
    n.parent, n.red, n.left, n.right := parent, true, null, null;
    if parent != null {
      parent.SetChild(d, n);
      root' := root;
    } else {
      root' := n;
    }
    LeafLinked(m, Snap(ns + {n}), z, n);
  }

  lemma {:induction false} HoleParent(m: Fields, z: Zip)
    requires Focus(m, z, Leaf)
    ensures z.In? ==> z.n in m && ZRoot(z, null) != null && forall a :: ZRoot(z, a) == ZRoot(z, null)
  {
    if z.In? { HoleRoot(z); }
  }

  lemma {:induction false} HoleRoot(z: Zip)
    requires z.In?
    ensures ZRoot(z, null) != null
    decreases z
  {
    if z.up.In? {
      HoleRoot(z.up);
      assert ZRoot(z.up, z.n) == ZRoot(z.up, null);
    }
  }

  /** The way down the left edge of `t`, the subtree at its end, and `t` without that subtree's root. */
  ghost function MinZip(z: Zip, t: Tree): Zip
    requires t.Fork?
    decreases t
  {
    if t.l.Leaf? then z else MinZip(In(true, t.red, t.n, t.r, z), t.l)
  }

  ghost function MinTree(t: Tree): Tree
    requires t.Fork?
    ensures MinTree(t).Fork? && MinTree(t).l.Leaf?
  {
    if t.l.Leaf? then t else MinTree(t.l)
  }

  ghost function DropMin(t: Tree): Tree
    requires t.Fork?
  {
    if t.l.Leaf? then t.r else Fork(t.red, DropMin(t.l), t.n, t.r)
  }

  lemma {:induction false} MinFocus(m: Fields, z: Zip, t: Tree)
    requires t.Fork?
    ensures Focus(m, z, t) <==> Focus(m, MinZip(z, t), MinTree(t))
    ensures Focus(m, z, DropMin(t)) <==> Focus(m, MinZip(z, t), MinTree(t).r)
    decreases t
  {
    hide Focus;
    if t.l.Fork? {
      FocusDown(m, z, true, t.red, t.l, t.n, t.r);
      FocusDown(m, z, true, t.red, DropMin(t.l), t.n, t.r);
      MinFocus(m, In(true, t.red, t.n, t.r, z), t.l);
    }
  }

  lemma {:induction false} MinRow(t: Tree)
    requires t.Fork?
    ensures Inorder(t) == [MinTree(t).n] + Inorder(DropMin(t))
  {
    if t.l.Fork? {
      MinRow(t.l);
      assert Inorder(t) == [MinTree(t).n] + Inorder(DropMin(t.l)) + [t.n] + Inorder(t.r);
      assert [MinTree(t).n] + Inorder(DropMin(t.l)) + [t.n] + Inorder(t.r)
          == [MinTree(t).n] + (Inorder(DropMin(t.l)) + [t.n] + Inorder(t.r));
    } else {
      assert Inorder(t) == [] + [t.n] + Inorder(t.r);
    }
  }

  lemma {:induction false} MinPlug(z: Zip, t: Tree)
    requires t.Fork?
    ensures Plug(MinZip(z, t), MinTree(t).r) == Plug(z, DropMin(t))
    ensures ZRoot(MinZip(z, t), null) == ZRoot(z, if t.l.Leaf? then null else t.n)
    decreases t
  {
    if t.l.Fork? { MinPlug(In(true, t.red, t.n, t.r, z), t.l); }
  }

  /** The rules along the left edge. */
  lemma {:induction false} MinRules(z: Zip, t: Tree)
    requires t.Fork? && Rb(t) && ZRb(z, Bh(t), IsRed(t))
    ensures Rb(MinTree(t)) && ZRb(MinZip(z, t), Bh(MinTree(t)), IsRed(MinTree(t)))
    decreases t
  {
    if t.l.Fork? { MinRules(In(true, t.red, t.n, t.r, z), t.l); }
  }

  /** The parent at the end of the left edge. */
  lemma {:induction false} MinParent(z: Zip, z': Zip, t: Tree)
    requires t.Fork?
    ensures MinZip(z, t).Top? <==> z.Top? && t.l.Leaf?
    ensures ZParent(MinZip(z, t)) == if t.l.Leaf? then ZParent(z) else ZParent(MinZip(z', t))
    decreases t
  {
    if t.l.Fork? { MinParent(In(true, t.red, t.n, t.r, z), In(true, t.red, t.n, t.r, z'), t.l); }
  }
}
