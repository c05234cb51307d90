/**
 When the step after a failed lookup in a T*-tree reaches the next larger key
 (kernel/ds/ttree.c).
 */
module TSeeks {
  import opened Shapes
  import opened TNodes
  import opened TLinks
  import opened TContent
  import opened TRebalance
  import opened TGrow
  import opened TSearch

  /**
   The next key after `key` is the last one of node number `j` of the row; if it is also
   the first one, the node has no left child.
   */
  ghost predicate LastLarger(m: Fields, q: seq<TNode>, j: int, key: int) {
    && 0 <= j < |q| && (forall i :: 0 <= i < |q| ==> q[i] in m) && (j > 0 ==> Less(m[q[j - 1]].items, key))
    && var i := m[q[j]].items;
       i != [] && i[|i| - 1] > key && Less(i[..|i| - 1], key) && (|i| == 1 ==> m[q[j]].left == null)
  }

  /** The node right behind a place in the tree has a left child, above that place. */
  lemma {:induction false} NextUp(m: Fields, c: TCtx, child: TNode)
    requires CtxLinked(m, c, child) && After(c) != []
    ensures After(c)[0] in m && m[After(c)[0]].left != null
  {
    if c.InRight? { NextUp(m, c.up, c.n); }
  }

  lemma {:induction false} PartLess(m: Fields, q: seq<TNode>, i: int, key: int)
    requires 0 <= i < |q| && Less(Flat(m, q), key)
    ensures Less(Items(m, q[i]), key)
  {
    FlatAround(m, q[..i], q[i], q[i + 1..]);
    assert q == q[..i] + [q[i]] + q[i + 1..];
    var a, b := Flat(m, q[..i]), Items(m, q[i]);
    assert forall j :: 0 <= j < |b| ==> Flat(m, q)[|a| + j] == b[j];
  }

  lemma {:induction false} PartMore(m: Fields, q: seq<TNode>, i: int, key: int)
    requires 0 <= i < |q| && More(Flat(m, q), key)
    ensures More(Items(m, q[i]), key)
  {
    FlatAround(m, q[..i], q[i], q[i + 1..]);
    assert q == q[..i] + [q[i]] + q[i + 1..];
    var a, b := Flat(m, q[..i]), Items(m, q[i]);
    assert forall j :: 0 <= j < |b| ==> Flat(m, q)[|a| + j] == b[j];
  }

  /** The cursor of the lookup is in the last room of its node: then that room holds the next larger key. */
  lemma {:induction false} LastRoom(m: Fields, s: TShape, k: int, x: TNode, p: int, at: Spot, key: int)
    requires Tree(m, s) && Vacant(m, s, k, x, p, Undef, at, key) && p == |m[x].items| - 1
    ensures LastLarger(m, Inorder(s), |RowL(at.c, at.l)|, key)
  {
    hide Flat, RowL, RowR, Inorder, Ascending;
    var q, a, b, i := Inorder(s), RowL(at.c, at.l), RowR(at.c, at.r), m[x].items;
    NodeRow(m, at.c, at.l, x, at.r);
    SitsIn(m, s, x, at);
    RowKnown(m, s);
    assert q[|a|] == x && i[p..][0] == i[p];
    if a != [] {
      PartLess(m, a, |a| - 1, key);
      assert q[|a| - 1] == a[|a| - 1];
    }
  }

  lemma {:induction false} RowKnown(m: Fields, s: TShape)
    requires Tree(m, s)
    ensures forall i :: 0 <= i < |Inorder(s)| ==> Inorder(s)[i] in m && m[Inorder(s)[i]].items != []
  {
  }

  /** The other way round: that node is the one of the cursor, and the cursor is in its last room. */
  lemma {:induction false} OnlyRoom(m: Fields, s: TShape, k: int, x: TNode, p: int, side: Side, at: Spot, key: int,
        j: int)
    requires k >= 2 && Tree(m, s) && Vacant(m, s, k, x, p, side, at, key) && LastLarger(m, Inorder(s), j, key)
    ensures side == Undef && p == |m[x].items| - 1
  {
    hide Flat, RowL, RowR, Inorder, Ascending, Tree;
    var q, a, b, i := Inorder(s), RowL(at.c, at.l), RowR(at.c, at.r), m[x].items;
    NodeRow(m, at.c, at.l, x, at.r);
    RowKnown(m, s);
    assert q[|a|] == x;
    if j < |a| {
      assert q[j] == a[j];
      PartLess(m, a, j, key);
    } else if j > |a| {
      NotBehind(m, s, x, p, at, key, j);
    } else {
      SameNode(i, p, key);
    }
  }

  lemma {:induction false} SameNode(i: seq<int>, p: int, key: int)
    requires i != [] && 0 <= p <= |i| && Less(i[..p], key) && More(i[p..], key)
    ensures (i[|i| - 1] > key <==> p < |i|) && (p < |i| - 1 ==> !Less(i[..|i| - 1], key))
  {
    if p == |i| {
      assert i[..p][|i| - 1] == i[|i| - 1];
    } else {
      assert i[p..][0] == i[p] && i[p..][|i| - 1 - p] == i[|i| - 1];
      if p < |i| - 1 { assert i[..|i| - 1][p] == i[p]; }
    }
  }

  /** No node behind the one of the cursor can be meant, not even when the cursor is behind all keys of its node. */
  lemma {:induction false} NotBehind(m: Fields, s: TShape, x: TNode, p: int, at: Spot, key: int, j: int)
    requires Tree(m, s) && Sits(s, x, at) && Gap(m, at.c, at.l, x, at.r, p, key)
    requires (p == |m[x].items| ==> at.r.Nil?) && |RowL(at.c, at.l)| < j < |Inorder(s)|
    ensures !LastLarger(m, Inorder(s), j, key)
  {
    hide Flat, RowL, Inorder, Ascending, Tree;
    var q, a, b, i := Inorder(s), RowL(at.c, at.l), RowR(at.c, at.r), m[x].items;
    NodeRow(m, at.c, at.l, x, at.r);
    RowKnown(m, s);
    var t := j - |a| - 1;
    assert q[j] == b[t] && q[|a|] == x;
    PartMore(m, b, t, key);
    if t > 0 {
      assert q[j - 1] == b[t - 1];
      PartMore(m, b, t - 1, key);
      assert m[q[j - 1]].items[0] > key;
    } else if p < |i| {
      assert i[p..][0] == i[p];
    } else {
      var y := m[q[j]].items;
      if |y| > 1 { assert y[..|y| - 1][0] == y[0]; }
      AfterHas(m, s, x, at);
    }
  }

  lemma {:induction false} AfterHas(m: Fields, s: TShape, x: TNode, at: Spot)
    requires Tree(m, s) && Sits(s, x, at) && at.r.Nil? && RowR(at.c, at.r) != []
    ensures RowR(at.c, at.r)[0] in m && m[RowR(at.c, at.r)[0]].left != null
  {
    hide Ascending, Flat;
    PlugLinked(m, at.c, Node(at.l, x, at.r));
    assert RowR(at.c, at.r) == After(at.c);
    NextUp(m, at.c, x);
  }

  /** The step after a miss succeeds exactly in that case, whatever cursor the lookup gives. */
  lemma {:induction false} Reaches(ns: set<TNode>, k: int, s: TShape, key: int, cur: Cursor, at: Spot)
    requires k >= 2 && Windows(ns, k) && Tree(Snap(ns), s) && Answer(ns, k, s, key, false, cur, at)
    ensures cur.state == Pending && cur.idx == cur.tnode.maxIdx <==>
      exists j :: LastLarger(Snap(ns), Inorder(s), j, key)
  {
    hide Tree, Windows, Vacant, LastLarger, Inorder, Flat, Found;
    var m, x, p := Snap(ns), cur.tnode, Offset(cur.tnode, cur.idx, cur.side);
    OneWindow(ns, k, x);
    if cur.state == Pending && cur.idx == x.maxIdx { LastRoom(m, s, k, x, p, at, key); }
    forall j | LastLarger(m, Inorder(s), j, key) ensures cur.state == Pending && cur.idx == x.maxIdx {
      OnlyRoom(m, s, k, x, p, cur.side, at, key, j);
    }
  }
}
