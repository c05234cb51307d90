/**
 Walking a T*-tree along its successor thread (kernel/ds/ttree.c).
 */
module TCursors {
  import opened Shapes
  import opened TNodes
  import opened TLinks
  import opened TContent
  import opened TRebalance
  import opened TGrow
  import opened TSearch
  import opened TInsert

  /** Key `p` of `x`, the node at position `j` of the row `q`, is key number `i` of the whole row. */
  ghost predicate OnRow(m: Fields, q: seq<TNode>, j: int, x: TNode, p: int, i: int) {
    0 <= j < |q| && q[j] == x && x in m && 0 <= p < |m[x].items| && i == |Flat(m, q[..j])| + p
  }

  lemma {:induction false} OnRowKey(m: Fields, q: seq<TNode>, j: int, x: TNode, p: int, i: int)
    requires OnRow(m, q, j, x, p, i)
    ensures 0 <= i < |Flat(m, q)| && Flat(m, q)[i] == m[x].items[p]
  {
    FlatAround(m, q[..j], x, q[j + 1..]);
    assert q == q[..j] + [x] + q[j + 1..];
  }

  /** Behind the last key of a node comes the first key of its successor, or nothing. */
  lemma {:induction false} NextOnRow(m: Fields, q: seq<TNode>, j: int, x: TNode, p: int, i: int)
    requires OnRow(m, q, j, x, p, i) && p == |m[x].items| - 1 && Threaded(m, q) && Filled(m)
    ensures m[x].successor == null ==> i + 1 == |Flat(m, q)|
    ensures m[x].successor != null ==> OnRow(m, q, j + 1, m[x].successor, 0, i + 1)
  {
    assert q[..j + 1] == q[..j] + [x];
    FlatAppend(m, q[..j], [x]);
    FlatOne(m, x);
    if m[x].successor == null {
      assert Next(q, j + 1) == null;
      assert q[..j + 1] == q;
    } else {
      assert q[j + 1] in m;
    }
  }

  lemma {:induction false} FirstOnRow(m: Fields, s: TShape)
    requires Tree(m, s) && s.Node?
    ensures OnRow(m, Inorder(s), 0, LeftmostNode(s), 0, 0)
  {
    hide Inorder, Disj, Linked, Bal, Flat, Ascending;
    LeftmostSits(Top, s);
    InorderSize(s);
    assert Inorder(s)[..0] == [];
    assert Flat(m, []) == [] by { EmptyFlat(m); }
  }

  lemma {:induction false} EmptyFlat(m: Fields)
    ensures Flat(m, []) == []
  {
  }

  lemma {:induction false} InorderSize(s: TShape)
    requires s.Node?
    ensures |Inorder(s)| > 0
  {
  }

  /** A child of a node of the tree that sits on the leftmost path. */
  lemma {:induction false} DownLeft(m: Fields, s: TShape, c: TCtx, t: TShape)
    requires Tree(m, s) && Plug(c, t) == s && t.Node? && s.Node? && LeftmostNode(t) == LeftmostNode(s)
    ensures t.n in m && m[t.n].left == Root(t.l)
    ensures t.l.Nil? ==> t.n == LeftmostNode(s)
    ensures t.l.Node? ==> Plug(InLeft(c, t.n, t.r), t.l) == s && LeftmostNode(t.l) == LeftmostNode(s)
  {
    SitsIn(m, s, t.n, Spot(c, t.l, t.r));
  }
}
