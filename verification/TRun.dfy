/**
 Whole runs of a T*-tree: every sequence of calls answers as a finite set of
 keys does, and every reachable tree keeps all its rules.
 */
module TRuns {
  import opened KeySets
  import opened Shapes
  import opened TNodes
  import opened TLinks
  import opened TContent
  import opened TBalance
  import opened TRebalance
  import opened TFixup
  import opened TGrow
  import opened TInsert
  import opened TSearch
  import opened TSeeks
  import opened TTrees

  /** One call: whether the key was present. */
  method Step(tree: TTree, call: Call) returns (present: bool)
    requires tree.Valid() && Strict(tree.Keys())
    modifies tree, tree.nodes, set n | n in tree.nodes :: n.keys
    ensures tree.Valid() && Strict(tree.Keys()) && present == (call.key in old(tree.Contents()))
    ensures tree.Contents() == SetAfter(call, old(tree.Contents()))
    ensures fresh(tree.nodes - old(tree.nodes)) && (forall n :: n in tree.nodes - old(tree.nodes) ==> fresh(n.keys))
  {
    hide Tree, Windows, Flat, Inorder, Strict;
    ghost var r, at;
    match call {
      case Insert(key) =>
        var res;
        res, r := tree.Insert(key);
        present := res == -1;
      case Delete(key) =>
        present, r := tree.Delete(key);
      case Lookup(key) =>
        var cur;
        present, cur, at := tree.Lookup(key);
    }
  }

  /** Every run from the empty tree refines the same run of a set, and its walk lists that set in order. */
  method Run(keysPerNode: int, calls: seq<Call>) returns (replies: seq<bool>, keys: seq<int>)
    requires 2 <= keysPerNode <= 2048
    ensures replies == SetReplies(calls, {})
    ensures Strict(keys) && (set key | key in keys) == SetFinal(calls, {})
  {
    hide Tree, Windows, Flat, Inorder, Ascending, SetReplies, SetFinal, SetAfter;
    var tree := new TTree(keysPerNode);
    replies := [];
    var i := 0;
    assert calls[0..] == calls && tree.Contents() == {};
    while i < |calls|
      invariant 0 <= i <= |calls| && tree.Valid() && fresh(tree) && fresh(tree.nodes)
      invariant Strict(tree.Keys()) && forall n :: n in tree.nodes ==> fresh(n.keys)
      invariant replies + SetReplies(calls[i..], tree.Contents()) == SetReplies(calls, {})
      invariant SetFinal(calls[i..], tree.Contents()) == SetFinal(calls, {})
    {
      ghost var keys := tree.Contents();
      var present := Step(tree, calls[i]);
      SetStep(calls, i, keys, replies);
      replies := replies + [present];
      i := i + 1;
    }
    assert calls[|calls|..] == [];
    SetDone(tree.Contents());
    keys := tree.Walk();
  }

  /** A tree with the keys 5 and 7, which go into one node. */
  method FiveAndSeven() returns (tree: TTree)
    ensures tree.Valid() && tree.root != null && tree.nodes == {tree.root} && tree.Keys() == [5, 7]
  {
    hide Tree, Windows, Flat, Inorder, Strict, Ascending;
    tree := new TTree(4);
    var res;
    ghost var r;
    res, r := tree.Insert(5);
    OneNode(tree);
    assert tree.Keys() == [5];
    res, r := tree.Insert(7);
    RootIn(tree);
    InOrder(tree, r);
  }

  /** The step after the failed lookup of 3 does not reach the larger key 5. */
  method SkippedExample() returns (tree: TTree, found: bool, res: int)
    ensures tree.Valid() && tree.Keys() == [5, 7] && !found && res == -1
  {
    hide Tree, Windows, Flat, Inorder, Strict, Ascending, LastLarger, Answer;
    tree := FiveAndSeven();
    OneNode(tree);
    var cur';
    ghost var cur, at, j, i;
    found, res, cur', cur, at, j, i := tree.SeekNext(3);
    NotLast(tree);
  }

  lemma {:induction false} RootIn(tree: TTree)
    requires tree.Valid() && tree.nodes != {}
    ensures tree.root != null && tree.root in tree.nodes
  {
    RootNode(tree.shape);
  }

  lemma {:induction false} OneNode(tree: TTree)
    requires tree.Valid() && tree.root != null && tree.nodes == {tree.root}
    ensures Inorder(tree.shape) == [tree.root] && tree.Keys() == tree.root.items
  {
    RootNode(tree.shape.l);
    RootNode(tree.shape.r);
    FlatOne(Snap(tree.nodes), tree.root);
  }

  lemma {:induction false} RootNode(s: TShape)
    ensures s.Node? ==> s.n in Nodes(s)
  {
  }

  lemma {:induction false} InOrder(tree: TTree, r: int)
    requires tree.Valid() && 0 <= r <= 1 && tree.Keys() == Inserted([5], r, 7)
    ensures tree.Keys() == [5, 7]
  {
    var q := Inserted([5], 0, 7);
    assert q[0] > q[1];
  }

  lemma {:induction false} NotLast(tree: TTree)
    requires tree.root != null && tree.nodes == {tree.root} && tree.Keys() == tree.root.items == [5, 7]
    requires Inorder(tree.shape) == [tree.root]
    ensures !tree.NextIsLast(3)
  {
    var i := tree.root.items;
    assert i[..1][0] == 5;
  }

  /** What holds of the node `x` that sits at `at`, in every tree a caller can see. */
  ghost predicate NodeRules(tree: TTree, x: TNode, at: Spot)
    reads tree, tree.nodes, set n | n in tree.nodes :: n.keys
  {
    && x in tree.nodes
    && x.bfc == Height(at.r) - Height(at.l) && -1 <= x.bfc <= 1
    && x.left == Root(at.l) && x.right == Root(at.r) && x.parent == CtxParent(at.c) && x.side == CtxSide(at.c)
    && 0 <= x.minIdx <= x.maxIdx < tree.k == x.keys.Length && Ascending(x.keys[x.minIdx..x.maxIdx + 1])
    && x.successor == Next(RowR(at.c, at.r), 0)
  }

  lemma {:induction false} ValidRules(tree: TTree, x: TNode, at: Spot)
    requires tree.Valid() && Sits(tree.shape, x, at)
    ensures NodeRules(tree, x, at)
  {
    hide Disj, Linked, Inorder, Flat, RowL, RowR, Height, Bal, CtxBal, Nodes, CtxNodes, Plug, CtxLinked, NoDup;
    var m := Snap(tree.nodes);
    SitsIn(m, tree.shape, x, at);
    OneWindow(tree.nodes, tree.k, x);
    WholeZip(m, at.c, Node(at.l, x, at.r));
    BalFactor(m, at.l, x, at.r);
    NodeRow(m, at.c, at.l, x, at.r);
    RowNext(m, RowL(at.c, at.l), x, RowR(at.c, at.r));
  }

  lemma {:induction false} BalFactor(m: Fields, l: TShape, x: TNode, r: TShape)
    requires Bal(m, Node(l, x, r))
    ensures x in m && m[x].bfc == Height(r) - Height(l) && -1 <= m[x].bfc <= 1
  {
  }

  lemma {:induction false} RowNext(m: Fields, a: seq<TNode>, x: TNode, b: seq<TNode>)
    requires Threaded(m, a + [x] + b)
    ensures x in m && m[x].successor == Next(b, 0)
  {
    var q := a + [x] + b;
    assert q[|a|] == x && Next(q, |a| + 1) == Next(b, 0);
  }

  /** The fewest nodes of a tree of height h, less than Fibonacci's. */
  function LeastNodes(h: int): int {
    if h <= 0 then 0 else if h == 1 then 1 else LeastNodes(h - 1) + LeastNodes(h - 2) + 1
  }

  lemma {:induction false} LeastNodesGrows(h: int, g: int)
    requires h <= g
    ensures LeastNodes(h) <= LeastNodes(g) && 0 <= LeastNodes(h)
    decreases g
  {
    if g > 1 {
      if h < g { LeastNodesGrows(h, g - 1); }
      LeastNodesGrows(g - 2, g - 1);
      if h == g { LeastNodesGrows(g - 1, g - 1); }
    }
  }

  /** A balanced tree is never much deeper than its node count asks for. */
  lemma {:induction false} BalancedIsLow(m: Fields, s: TShape)
    requires Bal(m, s) && Disj(s)
    ensures |Nodes(s)| >= LeastNodes(Height(s))
  {
    hide Height, Bal, Nodes, LeastNodes, Disj;
    if s.Nil? {
      HeightNil(s);
      LeastNodesGrows(0, 0);
      assert LeastNodes(0) == 0 by { NoNodes(); }
    } else {
      SubtreesLow(m, s);
      BalancedIsLow(m, s.l);
      BalancedIsLow(m, s.r);
      LeastNodesOfTwo(Height(s.l), Height(s.r));
      NodeCount(s);
    }
  }

  lemma {:induction false} NoNodes()
    ensures LeastNodes(0) == 0
  {
  }

  lemma {:induction false} SubtreesLow(m: Fields, s: TShape)
    requires Bal(m, s) && Disj(s) && s.Node?
    ensures Bal(m, s.l) && Bal(m, s.r) && Disj(s.l) && Disj(s.r)
    ensures -1 <= Height(s.r) - Height(s.l) <= 1 && Height(s) == Over(Height(s.l), Height(s.r))
  {
  }

  lemma {:induction false} LeastNodesOfTwo(a: nat, b: nat)
    requires -1 <= a - b <= 1
    ensures LeastNodes(Over(a, b)) <= LeastNodes(a) + LeastNodes(b) + 1
  {
    var h: int := Over(a, b);
    LeastNodesGrows(h - 2, a);
    LeastNodesGrows(h - 2, b);
  }

  lemma {:induction false} NodeCount(s: TShape)
    requires Disj(s) && s.Node?
    ensures |Nodes(s)| == |Nodes(s.l)| + 1 + |Nodes(s.r)|
  {
    assert Nodes(s) == Nodes(s.l) + {s.n} + Nodes(s.r);
  }
}
