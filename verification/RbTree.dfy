/**
 The red-black tree as an object: insertion, erasure and the in-order walk
 (kernel/ds/rbtree.c, include/ds/rbtree.h).
 */
module RbTrees {
  import opened RbNodes
  import opened RbShapes
  import opened RbTurns
  import opened RbInsertion
  import opened RbErasure
  import opened RbSplices

  /** The way from the root of `t` to the node `n`, and the subtree below it. */
  ghost function WayZip(z: Zip, t: Tree, n: RbNode): Zip
    requires n in Nodes(t)
    decreases t
  {
    if t.n == n then z
    else if n in Nodes(t.l) then WayZip(In(true, t.red, t.n, t.r, z), t.l, n)
    else WayZip(In(false, t.red, t.n, t.l, z), t.r, n)
  }

  ghost function WayTree(t: Tree, n: RbNode): Tree
    requires n in Nodes(t)
    ensures WayTree(t, n).Fork? && WayTree(t, n).n == n
  {
    if t.n == n then t else if n in Nodes(t.l) then WayTree(t.l, n) else WayTree(t.r, n)
  }

  lemma {:induction false} WayFocus(m: Fields, z: Zip, t: Tree, n: RbNode)
    requires n in Nodes(t)
    ensures Focus(m, z, t) <==> Focus(m, WayZip(z, t, n), WayTree(t, n))
    ensures Plug(WayZip(z, t, n), WayTree(t, n)) == Plug(z, t)
    decreases t
  {
    hide Focus;
    if t.n == n {
    } else if n in Nodes(t.l) {
      FocusDown(m, z, true, t.red, t.l, t.n, t.r);
      WayFocus(m, In(true, t.red, t.n, t.r, z), t.l, n);
    } else {
      FocusDown(m, z, false, t.red, t.r, t.n, t.l);
      WayFocus(m, In(false, t.red, t.n, t.l, z), t.r, n);
    }
  }

  /** What is left of the rules when a node with at most one child has gone. */
  lemma {:induction false} GoneRules(z: Zip, t: Tree, ch: Tree)
    requires OnlyChild(t, ch) && Rb(t) && ZRb(z, Bh(t), IsRed(t))
    ensures if t.red then Proper(Plug(z, ch)) else Short(z, ch)
  {
    assert Bh(ch) == Bh(t.l) == Bh(t.r) by { if ch == t.r { assert Bh(t.l) == Bh(t.r); } }
    if t.red {
      WeakerZRb(z, Bh(t), true);
      PlugRb(z, ch);
    }
  }

  /** Row of the whole tree around the node in focus, without it. */
  ghost function RowWithout(z: Zip, t: Tree): seq<RbNode>
    requires t.Fork?
  {
    Before(z) + (Inorder(t.l) + Inorder(t.r)) + After(z)
  }

  lemma {:induction false} OneRow(z: Zip, t: Tree, ch: Tree)
    requires OnlyChild(t, ch)
    ensures Inorder(Plug(z, ch)) == RowWithout(z, t)
  {
    PlugInorder(z, ch);
    assert Inorder(t.l) + Inorder(t.r) == Inorder(ch) by {
      if t.l.Leaf? { assert Inorder(t.l) == []; } else { assert Inorder(t.r) == []; }
    }
  }

  /** The colour fix-up, if the node that has gone was black. */
  method AfterGone(ghost ns: set<RbNode>, root: RbNode?, wasRed: bool, node: RbNode?, parent: RbNode?, ghost z: Zip,
        ghost ch: Tree)
    returns (root': RbNode?, ghost t': Tree)
    requires Focus(Snap(ns), z, ch) && if wasRed then Proper(Plug(z, ch)) else Short(z, ch)
    requires node == Root(ch) && parent == ZParent(z) && root == ZRoot(z, node)
    modifies ns
    ensures Focus(Snap(ns), Top, t') && Proper(t') && root' == Root(t') && Inorder(t') == Inorder(Plug(z, ch))
  {
    hide Focus, Short, Inorder, Plug, Proper;
    if !wasRed {
      root', t' := EraseColor(ns, root, node, parent, z, ch);
    } else {
      root', t' := root, Plug(z, ch);
      FocusWhole(Snap(ns), z, ch);
      PlugRoot(z, ch);
    }
  }

  /** Erases a node with at most one child. */
  method EraseOne(ghost ns: set<RbNode>, root: RbNode, node: RbNode, child: RbNode?, ghost z: Zip, ghost t: Tree,
        ghost ch: Tree)
    returns (root': RbNode?, ghost t': Tree)
    requires Focus(Snap(ns), z, t) && OnlyChild(t, ch) && t.n == node && node in ns && child == Root(ch)
    requires root == ZRoot(z, node) && Rb(t) && ZRb(z, Bh(t), IsRed(t))
    modifies ns
    ensures Focus(Snap(ns - {node}), Top, t') && Proper(t') && root' == Root(t') && Inorder(t') == RowWithout(z, t)
  {
    hide Focus, Short, Inorder, Plug, Proper, Rb, ZRb, Bh, RowWithout;
    SplicePointers(Snap(ns), z, t, ch);
    UpField(Snap(ns), z, t);
    var parent, red := node.parent, node.red;
    var r := SpliceOut(ns, root, node, child, z, t, ch);
    GoneRules(z, t, ch);
    OneRow(z, t, ch);
    RootOfHole(z, node, child);
    root', t' := AfterGone(ns - {node}, r, red, child, parent, z, ch);
  }

  lemma {:induction false} RootOfHole(z: Zip, a: RbNode?, b: RbNode?)
    ensures ZRoot(z, b) == if z.Top? then b else ZRoot(z, a)
  {
  }

  /** The leftmost node below `top`. */
  method LeftEdge(ghost ns: set<RbNode>, top: RbNode, ghost z: Zip, ghost t: Tree) returns (node: RbNode)
    requires Focus(Snap(ns), z, t) && t.Fork? && t.n == top
    ensures node == MinTree(t).n && node in ns && Focus(Snap(ns), MinZip(z, t), MinTree(t))
  {
    hide Focus, MinZip, MinTree;
    node := top;
    ghost var zs, ts := z, t;
    EdgeStep(Snap(ns), zs, ts);
    while node.left != null
      invariant ts.Fork? && ts.n == node && node in ns && node.left == Root(ts.l)
      invariant Focus(Snap(ns), zs, ts) && MinZip(zs, ts) == MinZip(z, t) && MinTree(ts) == MinTree(t)
      decreases ts
    {
      EdgeStep(Snap(ns), zs, ts);
      node := node.left;
      zs, ts := In(true, ts.red, ts.n, ts.r, zs), ts.l;
      EdgeStep(Snap(ns), zs, ts);
    }
    EdgeStep(Snap(ns), zs, ts);
  }

  lemma {:induction false} EdgeStep(m: Fields, z: Zip, t: Tree)
    requires Focus(m, z, t) && t.Fork?
    ensures t.n in m && m[t.n].left == Root(t.l)
    ensures t.l.Leaf? ==> MinZip(z, t) == z && MinTree(t) == t
    ensures t.l.Fork? ==> Focus(m, In(true, t.red, t.n, t.r, z), t.l)
    ensures t.l.Fork? ==> MinZip(In(true, t.red, t.n, t.r, z), t.l) == MinZip(z, t) && MinTree(t.l) == MinTree(t)
  {
    FocusDown(m, z, true, t.red, t.l, t.n, t.r);
  }

  /** Erases a node with two children: its successor takes its place. */
  method EraseTwo(ghost ns: set<RbNode>, root: RbNode, old': RbNode, ghost z: Zip, ghost t: Tree)
    returns (root': RbNode?, ghost t': Tree)
    requires Focus(Snap(ns), z, t) && t.Fork? && t.l.Fork? && t.r.Fork? && t.n == old' && old' in ns
    requires root == ZRoot(z, old')
    requires Rb(t) && ZRb(z, Bh(t), IsRed(t))
    modifies ns
    ensures Focus(Snap(ns - {old'}), Top, t') && Proper(t') && root' == Root(t') && Inorder(t') == RowWithout(z, t)
  {
    hide Focus, Short, Inorder, Plug, Proper, Rb, ZRb, Bh, RowWithout, MinZip, MinTree, DropMin;
    ghost var zr := In(false, t.red, old', t.l, z);
    ForkReads(Snap(ns), z, t);
    FocusDown(Snap(ns), z, false, t.red, t.r, old', t.l);
    var node := LeftEdge(ns, old'.right, zr, t.r);
    ghost var zs, ts, ch := MinZip(zr, t.r), MinTree(t.r), MinTree(t.r).r;
    MinParent(zr, zr, t.r);
    if t.r.l.Fork? {
      MinParentBelow(Snap(ns), zr, t.r);
      RightApart(Snap(ns), z, t);
    }
    SplicePointers(Snap(ns), zs, ts, ch);
    UpField(Snap(ns), zs, ts);
    ForkReads(Snap(ns), zs, ts);
    var child, parent, red := node.right, node.parent, node.red;
    var r := SpliceOut(ns, root, node, child, zs, ts, ch);
    ghost var ns' := ns - {node};
    if node.parent == old' { parent := node; }
    ghost var d := Fork(t.red, t.l, old', DropMin(t.r));
    MinFocus(Snap(ns'), zr, t.r);
    FocusDown(Snap(ns'), z, false, t.red, DropMin(t.r), old', t.l);
    r := Replace(ns', r, old', node, z, d);
    ghost var rest, zn := ns' - {old'} + {node}, In(false, t.red, node, t.l, z);
    assert rest == ns - {old'};
    FocusDown(Snap(rest), z, false, t.red, DropMin(t.r), node, t.l);
    MinFocus(Snap(rest), zn, t.r);
    MinParent(zn, zr, t.r);
    RootOfHole(z, old', node);
    MinRoot(zn, t.r, child);
    TwoRules(z, t, node);
    TwoRow(z, t, node);
    root', t' := AfterGone(rest, r, red, child, parent, MinZip(zn, t.r), ch);
  }

  lemma {:induction false} MinRoot(z: Zip, t: Tree, child: RbNode?)
    requires t.Fork? && z.In?
    ensures ZRoot(MinZip(z, t), child) == ZRoot(z.up, z.n)
  {
    MinPlug(z, t);
    MinParent(z, z, t);
    RootOfHole(MinZip(z, t), null, child);
    assert forall a :: ZRoot(z, a) == ZRoot(z.up, z.n);
  }

  lemma {:induction false} MinParentBelow(m: Fields, z: Zip, t: Tree)
    requires t.Fork? && t.l.Fork?
    ensures ZParent(MinZip(z, t)) in Nodes(t)
    decreases t
  {
    if t.l.l.Fork? {
      MinParentBelow(m, In(true, t.red, t.n, t.r, z), t.l);
    } else {
      assert MinZip(In(true, t.red, t.n, t.r, z), t.l) == In(true, t.red, t.n, t.r, z);
    }
  }

  lemma {:induction false} TwoRules(z: Zip, t: Tree, node: RbNode)
    requires t.Fork? && t.l.Fork? && t.r.Fork? && Rb(t) && ZRb(z, Bh(t), IsRed(t))
    ensures var zs, ts := MinZip(In(false, t.red, node, t.l, z), t.r), MinTree(t.r);
      if ts.red then Proper(Plug(zs, ts.r)) else Short(zs, ts.r)
  {
    hide MinZip, MinTree, Proper, Short, Plug;
    var zn := In(false, t.red, node, t.l, z);
    assert ZRb(zn, Bh(t.r), IsRed(t.r));
    MinRules(zn, t.r);
    GoneRules(MinZip(zn, t.r), MinTree(t.r), MinTree(t.r).r);
  }

  lemma {:induction false} TwoRow(z: Zip, t: Tree, node: RbNode)
    requires t.Fork? && t.r.Fork? && node == MinTree(t.r).n
    ensures Inorder(Plug(MinZip(In(false, t.red, node, t.l, z), t.r), MinTree(t.r).r)) == RowWithout(z, t)
  {
    hide MinZip, MinTree, DropMin;
    var zn, d := In(false, t.red, node, t.l, z), Fork(t.red, t.l, node, DropMin(t.r));
    MinPlug(zn, t.r);
    assert Plug(zn, DropMin(t.r)) == Plug(z, d);
    PlugInorder(z, d);
    MinRow(t.r);
    assert Inorder(t.l) + [node] + Inorder(DropMin(t.r)) == Inorder(t.l) + ([node] + Inorder(DropMin(t.r)));
  }

  lemma {:induction false} RightApart(m: Fields, z: Zip, t: Tree)
    requires Focus(m, z, t) && t.Fork?
    ensures t.n !in Nodes(t.r)
  {
  }

  lemma {:induction false} ForkReads(m: Fields, z: Zip, t: Tree)
    requires Focus(m, z, t) && t.Fork?
    ensures t.n in m && m[t.n].left == Root(t.l) && m[t.n].right == Root(t.r)
    ensures t == Mk(false, t.red, t.r, t.n, t.l)
  {
  }

  ghost predicate Sorted(row: seq<RbNode>) {
    forall i, j :: 0 <= i < j < |row| ==> row[i].key < row[j].key
  }

  ghost predicate Below(row: seq<RbNode>, key: int) { forall i :: 0 <= i < |row| ==> row[i].key < key }

  ghost predicate Above(row: seq<RbNode>, key: int) { forall i :: 0 <= i < |row| ==> key < row[i].key }

  class RbTree {
    var root: RbNode?
    ghost var nodes: set<RbNode>
    ghost var tree: Tree

    /** Links, colours and black heights, in every state a caller sees. */
    ghost predicate Valid()
      reads this, nodes
    {
      root == Root(tree) && Focus(Snap(nodes), Top, tree) && Proper(tree)
    }

    /** The nodes in order. */
    ghost function Row(): seq<RbNode>
      reads this
    {
      Inorder(tree)
    }

    constructor ()
      ensures Valid() && Row() == [] && nodes == {}
    {
      root, nodes, tree := null, {}, Leaf;
    }

    /** Links `node` at an empty place below `parent` and restores the rules. */
    method Add(node: RbNode, parent: RbNode?, d: bool, ghost z: Zip)
      requires Valid() && node !in nodes && parent == ZParent(z) && (z.In? ==> z.d == d)
      requires Focus(Snap(nodes), z, Leaf) && Plug(z, Leaf) == tree
      modifies this, nodes, node
      ensures Valid() && nodes == old(nodes) + {node} && Row() == Before(z) + [node] + After(z)
    {
      hide Focus, Proper, Inorder, Plug, RedBelow;
      ghost var t := Fork(true, Leaf, node, Leaf);
      PlugRoot(z, Leaf);
      AddRules(z, node);
      var r := LinkNode(nodes, root, node, parent, d, z);
      var r';
      ghost var t';
      r', t' := InsertColor(nodes + {node}, r, node, z, t);
      root, nodes, tree := r', nodes + {node}, t';
    }

    /** Takes `node` out of the tree; `i` is where it was in the row. */
    method Erase(node: RbNode) returns (ghost i: int)
      requires Valid() && node in nodes
      modifies this, nodes
      ensures Valid() && nodes == old(nodes) - {node}
      ensures 0 <= i < |old(Row())| && old(Row())[i] == node && Row() == old(Row())[..i] + old(Row())[i + 1..]
    {
      hide Focus, Proper, Inorder, Plug, Rb, ZRb, Bh, WayZip, WayTree, RowWithout;
      InTree(Snap(nodes), tree, node);
      ghost var z, t := WayZip(Top, tree, node), WayTree(tree, node);
      WayRules(tree, node);
      ForkReads(Snap(nodes), z, t);
      var r;
      ghost var t';
      if node.left == null {
        r, t' := EraseOne(nodes, root, node, node.right, z, t, t.r);
      } else if node.right == null {
        r, t' := EraseOne(nodes, root, node, node.left, z, t, t.l);
      } else {
        r, t' := EraseTwo(nodes, root, node, z, t);
      }
      i := RowSplit(z, t);
      root, nodes, tree := r, nodes - {node}, t';
    }

    /** The first node of the row. */
    method First() returns (n: RbNode?)
      requires Valid()
      ensures n == if Row() == [] then null else Row()[0]
    {
      hide Focus, Proper;
      if root == null { return null; }
      n := LeftEdge(nodes, root, Top, tree);
      MinRow(tree);
    }

    /** The node after the one at position `i` of the row. */
    method Next(node: RbNode, ghost i: int) returns (n: RbNode?)
      requires Valid() && 0 <= i < |Row()| && Row()[i] == node
      ensures n == if i + 1 < |Row()| then Row()[i + 1] else null
    {
      hide Focus, Proper, Inorder, Plug, WayZip, WayTree;
      InRow(tree, i);
      InTree(Snap(nodes), tree, node);
      ghost var z, t := WayZip(Top, tree, node), WayTree(tree, node);
      RowAround(Snap(nodes), tree, z, t, i);
      ForkReads(Snap(nodes), z, t);
      if node.right != null {
        FocusDown(Snap(nodes), z, false, t.red, t.r, node, t.l);
        n := LeftEdge(nodes, node.right, In(false, t.red, node, t.l, z), t.r);
        MinRow(t.r);
        assert Row()[i + 1..][0] == n;
        return;
      }
      n := ClimbRight(nodes, node, z, t);
      NoRow();
      assert Row()[i + 1..] == After(z);
      assert After(z) != [] ==> Row()[i + 1..][0] == After(z)[0];
    }

    /** The walk from the first node gives every node once, in order. */
    method Walk() returns (out: seq<RbNode>)
      requires Valid()
      ensures out == Row()
    {
      hide Focus, Proper, Inorder;
      var n := First();
      out := [];
      while n != null
        invariant |out| <= |Row()| && out == Row()[..|out|]
        invariant n == if |out| < |Row()| then Row()[|out|] else null
        decreases |Row()| - |out|
      {
        var m := Next(n, |out|);
        out := out + [n];
        n := m;
      }
    }

    /** The documented search: the node with `key`, or the empty place where it belongs. */
    method Search(key: int) returns (n: RbNode?, parent: RbNode?, d: bool, ghost z: Zip)
      requires Valid() && Sorted(Row())
      ensures n != null ==> n in nodes && n in Row() && n.key == key
      ensures n == null ==>
        && Focus(Snap(nodes), z, Leaf) && Plug(z, Leaf) == tree && parent == ZParent(z) && (z.In? ==> z.d == d)
      ensures n == null ==> Below(Before(z), key) && Above(After(z), key) && (forall x :: x in Row() ==> x.key != key)
    {
      hide Focus, Proper, Inorder, Plug, Before, After, Sorted, Below, Above;
      n, parent, d, z := root, null, true, Top;
      ghost var t := tree;
      StartDown(tree, key);
      while n != null
        invariant Focus(Snap(nodes), z, t) && Plug(z, t) == tree && n == Root(t)
        invariant parent == ZParent(z) && (z.In? ==> z.d == d)
        invariant Below(Before(z), key) && Above(After(z), key)
        decreases t
      {
        ForkReads(Snap(nodes), z, t);
        StepDown(Snap(nodes), tree, z, t, key);
        parent := n;
        if key < n.key {
          d, z, t := true, In(true, t.red, t.n, t.r, z), t.l;
          n := n.left;
        } else if key > n.key {
          d, z, t := false, In(false, t.red, t.n, t.l, z), t.r;
          n := n.right;
        } else {
          return;
        }
      }
      EndDown(tree, z, key);
    }

    ghost function Contents(): set<int>
      reads this
    {
      set n | n in Row() :: n.key
    }

    /** Whether `key` was there already; if not, a new node carries it now. */
    method Insert(key: int) returns (present: bool)
      requires Valid() && Sorted(Row())
      modifies this, nodes
      ensures Valid() && Sorted(Row()) && fresh(nodes - old(nodes))
      ensures present == (key in old(Contents())) && Contents() == old(Contents()) + {key}
    {
      hide Focus, Proper, Inorder, Plug, Before, After, Sorted, Below, Above;
      var n, parent, d;
      ghost var z;
      n, parent, d, z := Search(key);
      if n != null { return true; }
      var node := new RbNode(key);
      PlugInorder(z, Leaf);
      NoRow();
      PutBetween(Before(z), node, After(z));
      Add(node, parent, d, z);
      present := false;
    }

    /** Whether `key` was there; its node is gone now. */
    method Delete(key: int) returns (present: bool)
      requires Valid() && Sorted(Row())
      modifies this, nodes
      ensures Valid() && Sorted(Row()) && nodes <= old(nodes)
      ensures present == (key in old(Contents())) && Contents() == old(Contents()) - {key}
    {
      hide Focus, Proper, Inorder, Plug, Before, After, Sorted, Below, Above;
      var n, parent, d;
      ghost var z;
      n, parent, d, z := Search(key);
      if n == null { return false; }
      ghost var row := Row();
      ghost var i := Erase(n);
      TakeOut(row, i);
      present := true;
    }
  }

  lemma {:induction false} AddRules(z: Zip, node: RbNode)
    requires Proper(Plug(z, Leaf))
    ensures RedBelow(z, Fork(true, Leaf, node, Leaf))
    ensures Inorder(Plug(z, Fork(true, Leaf, node, Leaf))) == Before(z) + [node] + After(z)
  {
    PlugRb(z, Leaf);
    PlugInorder(z, Fork(true, Leaf, node, Leaf));
  }

  lemma {:induction false} InTree(m: Fields, t: Tree, n: RbNode)
    requires Focus(m, Top, t) && (n in m || n in Nodes(t))
    ensures n in m && n in Nodes(t) && Focus(m, WayZip(Top, t, n), WayTree(t, n))
    ensures Plug(WayZip(Top, t, n), WayTree(t, n)) == t
  {
    assert ZNodes(Top) == {};
    WayFocus(m, Top, t, n);
  }

  lemma {:induction false} WayRules(t: Tree, n: RbNode)
    requires n in Nodes(t) && Proper(t) && Plug(WayZip(Top, t, n), WayTree(t, n)) == t
    ensures var z, s := WayZip(Top, t, n), WayTree(t, n);
      Rb(s) && ZRb(z, Bh(s), IsRed(s)) && Root(t) == ZRoot(z, n) && ZRoot(z, n) != null
  {
    var z, s := WayZip(Top, t, n), WayTree(t, n);
    PlugRb(z, s);
    PlugRoot(z, s);
  }

  lemma {:induction false} RowSplit(z: Zip, t: Tree) returns (i: int)
    requires t.Fork?
    ensures var row := Inorder(Plug(z, t));
      0 <= i < |row| && row[i] == t.n && RowWithout(z, t) == row[..i] + row[i + 1..]
  {
    hide Plug, Before, After;
    PlugInorder(z, t);
    i := |Before(z)| + |Inorder(t.l)|;
    RowCut(Before(z), Inorder(t.l), t.n, Inorder(t.r), After(z));
  }

  lemma {:induction false} RowCut(b: seq<RbNode>, l: seq<RbNode>, n: RbNode, r: seq<RbNode>, a: seq<RbNode>)
    ensures var row, i := b + (l + [n] + r) + a, |b| + |l|;
      row[i] == n && b + (l + r) + a == row[..i] + row[i + 1..] && row[..i] == b + l && row[i + 1..] == r + a
  {
  }

  lemma {:induction false} InRow(t: Tree, i: int)
    requires 0 <= i < |Inorder(t)|
    ensures Inorder(t)[i] in Nodes(t)
  {
    if i < |Inorder(t.l)| {
      InRow(t.l, i);
    } else if i > |Inorder(t.l)| {
      InRow(t.r, i - |Inorder(t.l)| - 1);
    }
  }

  lemma {:induction false} NoRepeats(t: Tree, i: int, j: int)
    requires Disj(t) && 0 <= i < j < |Inorder(t)|
    ensures Inorder(t)[i] != Inorder(t)[j]
  {
    var k := |Inorder(t.l)|;
    if j < k {
      NoRepeats(t.l, i, j);
    } else if i > k {
      NoRepeats(t.r, i - k - 1, j - k - 1);
    } else {
      if i < k { InRow(t.l, i); }
      if j > k { InRow(t.r, j - k - 1); }
    }
  }

  /** Where a node stands in the row says what comes before and after it. */
  lemma {:induction false} RowAround(m: Fields, w: Tree, z: Zip, t: Tree, i: int)
    requires Focus(m, Top, w) && Plug(z, t) == w && t.Fork? && 0 <= i < |Inorder(w)| && Inorder(w)[i] == t.n
    ensures Inorder(w)[i + 1..] == Inorder(t.r) + After(z)
  {
    PlugInorder(z, t);
    var k := |Before(z)| + |Inorder(t.l)|;
    RowCut(Before(z), Inorder(t.l), t.n, Inorder(t.r), After(z));
    if i < k { NoRepeats(w, i, k); }
    if k < i { NoRepeats(w, k, i); }
  }

  /** Climbs while coming from the right; the parent then reached is the next node. */
  method ClimbRight(ghost ns: set<RbNode>, node: RbNode, ghost z0: Zip, ghost t0: Tree) returns (n: RbNode?)
    requires Focus(Snap(ns), z0, t0) && t0.Fork? && t0.n == node
    ensures n == if After(z0) == [] then null else After(z0)[0]
  {
    hide Focus, Mk;
    var c := node;
    ghost var z, t := z0, t0;
    ClimbReads(Snap(ns), z, t);
    while c.parent != null && c == c.parent.right
      invariant Focus(Snap(ns), z, t) && t.Fork? && t.n == c && c in ns && After(z) == After(z0)
      invariant c.parent == ZParent(z) && (z.In? ==> z.n in ns && OnlyHere(RecOf(z.n), z.d, c))
      decreases z
    {
      FocusUp(Snap(ns), z, t);
      MkFork(z.d, z.red, t, z.n, z.sib);
      c := c.parent;
      t := Mk(z.d, z.red, t, z.n, z.sib);
      z := z.up;
      ClimbReads(Snap(ns), z, t);
    }
    n := c.parent;
  }

  lemma {:induction false} ClimbReads(m: Fields, z: Zip, t: Tree)
    requires Focus(m, z, t) && t.Fork?
    ensures t.n in m && m[t.n].parent == ZParent(z) && (z.In? ==> z.n in m && OnlyHere(m[z.n], z.d, t.n))
  {
    hide ZLinked, ZNodes, Nodes, Disj, ZDisj;
    RootIn(t);
    ParentLinks(m, z, t.n);
  }

  lemma {:induction false} NoRow()
    ensures Inorder(Leaf) == []
  {
  }

  lemma {:induction false} StartDown(t: Tree, key: int)
    ensures Plug(Top, t) == t && Below(Before(Top), key) && Above(After(Top), key)
  {
  }

  /** One comparison of the search leaves only the matching half open. */
  lemma {:induction false} StepDown(m: Fields, w: Tree, z: Zip, t: Tree, key: int)
    requires Focus(m, z, t) && Plug(z, t) == w && t.Fork? && Sorted(Inorder(w)) && Below(Before(z), key)
    requires Above(After(z), key)
    ensures t.n in m && t.n in Inorder(w)
    ensures key < t.n.key ==> var z' := In(true, t.red, t.n, t.r, z);
      Focus(m, z', t.l) && Plug(z', t.l) == w && Below(Before(z'), key) && Above(After(z'), key)
    ensures key > t.n.key ==> var z' := In(false, t.red, t.n, t.l, z);
      Focus(m, z', t.r) && Plug(z', t.r) == w && Below(Before(z'), key) && Above(After(z'), key)
  {
    hide Focus, Inorder;
    FocusDown(m, z, true, t.red, t.l, t.n, t.r);
    FocusDown(m, z, false, t.red, t.r, t.n, t.l);
    ForkReads(m, z, t);
    HalfRows(w, z, t);
  }

  lemma {:induction false} HalfRows(w: Tree, z: Zip, t: Tree)
    requires Plug(z, t) == w && t.Fork? && Sorted(Inorder(w))
    ensures t.n in Inorder(w)
    ensures forall i :: 0 <= i < |Inorder(t.l)| ==> Inorder(t.l)[i].key < t.n.key
    ensures forall i :: 0 <= i < |Inorder(t.r)| ==> t.n.key < Inorder(t.r)[i].key
  {
    hide Plug, Before, After;
    PlugInorder(z, t);
    var b, l, r, a := Before(z), Inorder(t.l), Inorder(t.r), After(z);
    assert Inorder(t) == l + [t.n] + r;
    HalfKeys(b, l, t.n, r, a);
  }

  lemma {:induction false} HalfKeys(b: seq<RbNode>, l: seq<RbNode>, n: RbNode, r: seq<RbNode>, a: seq<RbNode>)
    requires Sorted(b + (l + [n] + r) + a)
    ensures n in b + (l + [n] + r) + a
    ensures forall i :: 0 <= i < |l| ==> l[i].key < n.key
    ensures forall i :: 0 <= i < |r| ==> n.key < r[i].key
  {
    var row := b + (l + [n] + r) + a;
    assert row[|b| + |l|] == n;
    forall i | 0 <= i < |l| ensures l[i].key < n.key { assert row[|b| + i] == l[i]; }
    forall i | 0 <= i < |r| ensures n.key < r[i].key { assert row[|b| + |l| + 1 + i] == r[i]; }
  }

  lemma {:induction false} EndDown(w: Tree, z: Zip, key: int)
    requires Plug(z, Leaf) == w && Below(Before(z), key) && Above(After(z), key)
    ensures forall x :: x in Inorder(w) ==> x.key != key
  {
    PlugInorder(z, Leaf);
    assert Inorder(w) == Before(z) + After(z);
  }

  lemma {:induction false} PutBetween(a: seq<RbNode>, n: RbNode, b: seq<RbNode>)
    requires Sorted(a + [] + b) && Below(a, n.key) && Above(b, n.key)
    ensures Sorted(a + [n] + b)
    ensures (set x | x in a + [n] + b :: x.key) == (set x | x in a + [] + b :: x.key) + {n.key}
  {
    var p, q := a + [] + b, a + [n] + b;
    forall i, j | 0 <= i < j < |q| ensures q[i].key < q[j].key {
      assert i < |a| ==> q[i] == p[i];
      assert j < |a| ==> q[j] == p[j];
      assert i > |a| ==> q[i] == p[i - 1];
      assert j > |a| ==> q[j] == p[j - 1];
    }
    assert forall x :: x in q <==> x in p || x == n;
    assert n in q;
  }

  lemma {:induction false} TakeOut(row: seq<RbNode>, i: int)
    requires Sorted(row) && 0 <= i < |row|
    ensures var rest := row[..i] + row[i + 1..];
      Sorted(rest) && (set x | x in rest :: x.key) == (set x | x in row :: x.key) - {row[i].key}
  {
    var rest := row[..i] + row[i + 1..];
    assert forall j :: 0 <= j < |rest| ==> rest[j] == row[if j < i then j else j + 1];
    forall x | x in row && x != row[i] ensures x in rest {
      var j :| 0 <= j < |row| && row[j] == x;
      assert rest[if j < i then j else j - 1] == x;
    }
  }
}
