/**
 Whole runs of the red-black tree, and how deep it can get.
 */
module RbRuns {
  import opened KeySets
  import opened RbNodes
  import opened RbShapes
  import opened RbTurns
  import opened RbTrees

  /** One call: whether the key was present. */
  method Step(tree: RbTree, call: Call) returns (present: bool)
    requires tree.Valid() && Sorted(tree.Row())
    modifies tree, tree.nodes
    ensures tree.Valid() && Sorted(tree.Row()) && present == (call.key in old(tree.Contents()))
    ensures tree.Contents() == SetAfter(call, old(tree.Contents())) && fresh(tree.nodes - old(tree.nodes))
  {
    hide Focus, Proper, Inorder, Sorted;
    match call {
      case Insert(key) =>
        present := tree.Insert(key);
      case Delete(key) =>
        present := tree.Delete(key);
      case Lookup(key) =>
        var n, parent, d;
        ghost var z;
        n, parent, d, z := tree.Search(key);
        present := n != null;
    }
  }

  /** Every run from the empty tree refines the same run of a set, and its walk lists that set in order. */
  method Run(calls: seq<Call>) returns (replies: seq<bool>, row: seq<RbNode>)
    ensures replies == SetReplies(calls, {})
    ensures Sorted(row) && (set n | n in row :: n.key) == SetFinal(calls, {})
  {
    hide Focus, Proper, Inorder, Sorted, SetReplies, SetFinal, SetAfter;
    var tree := new RbTree();
    replies := [];
    var i := 0;
    assert calls[0..] == calls && tree.Contents() == {};
    assert Sorted(tree.Row()) by { EmptySorted(); }
    while i < |calls|
      invariant 0 <= i <= |calls| && tree.Valid() && Sorted(tree.Row()) && fresh(tree) && fresh(tree.nodes)
      invariant replies + SetReplies(calls[i..], tree.Contents()) == SetReplies(calls, {})
      invariant SetFinal(calls[i..], tree.Contents()) == SetFinal(calls, {})
    {
      ghost var keys := tree.Contents();
      var present := Step(tree, calls[i]);
      SetStep(calls, i, keys, replies);
      replies := replies + [present];
      i := i + 1;
    }
    assert calls[|calls|..] == [];
    SetDone(tree.Contents());
    row := tree.Walk();
  }

  lemma {:induction false} EmptySorted()
    ensures Sorted([])
  {
  }

  ghost function Height(t: Tree): nat {
    if t.Leaf? then 0 else 1 + if Height(t.l) > Height(t.r) then Height(t.l) else Height(t.r)
  }

  ghost function Pow2(n: nat): nat { if n == 0 then 1 else 2 * Pow2(n - 1) }

  lemma {:induction false} Pow2Grows(a: nat, b: nat)
    requires a <= b
    ensures 1 <= Pow2(a) <= Pow2(b)
    decreases b
  {
    if a < b { Pow2Grows(a, b - 1); } else if a > 0 { Pow2Grows(a - 1, a - 1); }
  }

  lemma {:induction false} Pow2Twice(a: nat)
    ensures Pow2(2 * a) == Pow2(a) * Pow2(a)
  {
    if a > 0 {
      Pow2Twice(a - 1);
      var p := Pow2(a - 1);
      assert Pow2(2 * a) == 2 * (2 * Pow2(2 * (a - 1)));
      assert (2 * p) * (2 * p) == 4 * (p * p);
    }
  }

  /** Red nodes at most double a way down, black nodes at least double the tree. */
  lemma {:induction false} RbBounds(t: Tree)
    requires Rb(t) && Disj(t)
    ensures Height(t) <= 2 * Bh(t) + if IsRed(t) then 1 else 0
    ensures Pow2(Bh(t)) <= |Nodes(t)| + 1
  {
    if t.Fork? {
      RbBounds(t.l);
      RbBounds(t.r);
      assert |Nodes(t)| == |Nodes(t.l)| + 1 + |Nodes(t.r)| by { TreeSize(t); }
    }
  }

  lemma {:induction false} TreeSize(t: Tree)
    requires t.Fork? && Disj(t)
    ensures |Nodes(t)| == |Nodes(t.l)| + 1 + |Nodes(t.r)|
  {
    assert Nodes(t) == Nodes(t.l) + {t.n} + Nodes(t.r);
  }

  /** A tree of n nodes has height at most 2 * log2(n + 1). */
  lemma {:induction false} HeightBound(tree: RbTree)
    requires tree.Valid()
    ensures Pow2(Height(tree.tree)) <= (|tree.nodes| + 1) * (|tree.nodes| + 1)
  {
    var t := tree.tree;
    RbBounds(t);
    assert Snap(tree.nodes).Keys == tree.nodes && ZNodes(Top) == {};
    Pow2Grows(Height(t), 2 * Bh(t));
    Pow2Twice(Bh(t));
    Squares(Pow2(Bh(t)), |tree.nodes| + 1);
  }

  lemma {:induction false} Squares(a: nat, b: nat)
    requires a <= b
    ensures a * a <= b * b
  {
    assert a * a <= a * b <= b * b;
  }
}
