/**
 Taking a key out of a T*-tree: borrowing from the successor, merging a
 half-leaf with its leaf (kernel/ds/ttree.c).
 */
module TDelete {
  import opened Shapes
  import opened TNodes
  import opened TLinks
  import opened TContent
  import opened TBalance
  import opened TFixup
  import opened TGrow
  import opened TKeys
  import opened TShrink
  import opened TSearch
  import opened TInsert

  /** `q` without its element at position `r`. */
  ghost function Removed(q: seq<int>, r: int): seq<int>
    requires 0 <= r < |q|
  {
    q[..r] + q[r + 1..]
  }

  /** A tree in which only `e` may have no keys. */
  ghost predicate Part(m: Fields, s: TShape, e: TNode) {
    Bare(m, s) && FilledBut(m, e) && Ascending(Flat(m, Inorder(s)))
  }

  lemma {:induction false} PartWhole(m: Fields, s: TShape, e: TNode)
    requires Part(m, s, e) && e in m && m[e].items != []
    ensures Tree(m, s)
  {
  }

  lemma {:induction false} RemovedParts(a: seq<int>, i: seq<int>, b: seq<int>, p: int)
    requires 0 <= p < |i|
    ensures Removed(a + i + b, |a| + p) == a + (i[..p] + i[p + 1..]) + b
  {
    var q := a + i + b;
    assert q[..|a| + p] == a + i[..p];
    assert q[|a| + p + 1..] == i[p + 1..] + b;
  }

  lemma {:induction false} RemovedAscending(q: seq<int>, r: int)
    requires Ascending(q) && 0 <= r < |q|
    ensures Ascending(Removed(q, r))
  {
    var d := Removed(q, r);
    forall i, j | 0 <= i < j < |d| ensures d[i] <= d[j] {
      assert d[i] == q[if i < r then i else i + 1];
      assert d[j] == q[if j < r then j else j + 1];
    }
  }

  lemma {:induction false} TakeTree(m: Fields, m': Fields, s: TShape, x: TNode, at: Spot, p: int)
    requires Tree(m, s) && Sits(s, x, at) && x in m && 0 <= p < |m[x].items| && KeysOnly(m, m', {x})
    requires m'[x].items == m[x].items[..p] + m[x].items[p + 1..]
    ensures Part(m', s, x) && 0 <= Rank(m, at, p) < |Flat(m, Inorder(s))|
    ensures Flat(m, Inorder(s))[Rank(m, at, p)] == m[x].items[p]
    ensures Flat(m', Inorder(s)) == Removed(Flat(m, Inorder(s)), Rank(m, at, p))
  {
    hide Flat, Inorder, Linked, Bal, Nodes, Disj, Before, After, Plug, NoDup, Ascending, Removed, RowL, RowR, Threaded;
    SitsNoDup(m, s, x, at);
    FlatOneChanged(m, m', RowL(at.c, at.l), x, RowR(at.c, at.r));
    RemovedParts(Flat(m, RowL(at.c, at.l)), m[x].items, Flat(m, RowR(at.c, at.r)), p);
    RemovedAscending(Flat(m, Inorder(s)), Rank(m, at, p));
    BareFrame(m, m', s);
  }

  /** Keys moved between neighbours; only `e` may have been emptied. */
  lemma {:induction false} PairTree(m: Fields, m': Fields, s: TShape, a: seq<TNode>, x: TNode, y: TNode,
        b: seq<TNode>, d: TNode, e: TNode)
    requires Part(m, s, d) && Inorder(s) == a + [x] + [y] + b && x in m && y in m && (d == x || d == y)
    requires KeysOnly(m, m', {x, y}) && m'[x].items + m'[y].items == m[x].items + m[y].items
    requires (e == y && m'[x].items != []) || (e == x && m'[y].items != [])
    ensures Part(m', s, e) && Flat(m', Inorder(s)) == Flat(m, Inorder(s))
  {
    hide Flat, Inorder, Linked, Bal, Nodes, Disj, NoDup, Ascending, Threaded;
    DisjNoDup(s);
    FlatPairChanged(m, m', a, x, y, b);
    BareFrame(m, m', s);
  }

  /** The successor of an internal node during a deletion. */
  lemma {:induction false} NextSpot(m: Fields, s: TShape, x: TNode, at: Spot)
    requires Bare(m, s) && Sits(s, x, at) && at.r.Node? && x in m
    ensures var y, sy := LeftmostNode(at.r), LeftmostSpot(InRight(at.l, x, at.c), at.r);
      && m[x].successor == y && y in m && y != x && Sits(s, y, sy) && sy.l.Nil?
      && Inorder(s) == RowL(at.c, at.l) + [x] + [y] + RowR(sy.c, sy.r)
  {
    hide Inorder, RowL, RowR, LeftmostSpot, LeftmostNode, Disj, Linked, Bal, Plug;
    SuccessorSpot(m, s, x, at);
    NodeRow(m, at.c, at.l, x, at.r);
    var y, sy := LeftmostNode(at.r), LeftmostSpot(InRight(at.l, x, at.c), at.r);
    Tail(RowL(at.c, at.l) + [x], [y], RowR(sy.c, sy.r));
  }

  ghost predicate LeafSpot(at: Spot) { at.l.Nil? && at.r.Nil? }

  /** The only child of a half-leaf, where it sits, and whether it is the right one. */
  ghost function ChildSpot(t: TNode, at: Spot): Spot {
    if at.l.Nil? then Spot(InRight(at.l, t, at.c), Nil, Nil) else Spot(InLeft(at.c, t, at.r), Nil, Nil)
  }

  /** The only child of a node with one child. */
  ghost function OnlyChild(at: Spot): TShape {
    if at.l.Nil? then at.r else at.l
  }

  lemma {:induction false} ChildIsLeaf(m: Fields, t: TNode, at: Spot)
    requires Bal(m, Node(at.l, t, at.r)) && (at.l.Nil? <==> !at.r.Nil?)
    ensures OnlyChild(at) == Node(Nil, OnlyChild(at).n, Nil)
  {
    hide Bal, Height;
    ChildLow(m, t, at);
    var ch := OnlyChild(at);
    HeightNil(ch.l);
    HeightNil(ch.r);
    assert ch.l == Nil && ch.r == Nil by { HeightOne(ch); }
  }

  lemma {:induction false} HeightOne(s: TShape)
    requires Height(s) == 1
    ensures s.Node? && Height(s.l) == 0 && Height(s.r) == 0
  {
  }

  lemma {:induction false} ChildLow(m: Fields, t: TNode, at: Spot)
    requires Bal(m, Node(at.l, t, at.r)) && (at.l.Nil? <==> !at.r.Nil?)
    ensures Height(OnlyChild(at)) == 1
  {
    HeightNil(at.l);
    HeightNil(at.r);
  }

  lemma {:induction false} ChildLinked(m: Fields, p: TNode?, d: Side, t: TNode, at: Spot, n: TNode)
    requires Linked(m, Node(at.l, t, at.r), p, d)
    requires (at.l.Nil? && at.r == Node(Nil, n, Nil)) || (at.r.Nil? && at.l == Node(Nil, n, Nil))
    ensures n in m && t in m && m[t].left == Root(at.l) && m[t].right == Root(at.r)
    ensures m[n].side == (if at.l.Nil? then Right else Left)
  {
  }

  /** The only child of a node with one child is a leaf, next to it in the row. */
  lemma {:induction false} HalfLeaf(m: Fields, s: TShape, t: TNode, at: Spot)
    requires Bare(m, s) && Sits(s, t, at) && t in m && (at.l.Nil? <==> !at.r.Nil?)
    ensures var n, an := Root(OnlyChild(at)), ChildSpot(t, at);
      && n != null && n in m && n != t && Sits(s, n, an)
      && m[t].left == Root(at.l) && m[t].right == Root(at.r) && m[n].side == (if at.l.Nil? then Right else Left)
      && (at.l.Nil? ==> Inorder(s) == RowL(at.c, at.l) + [t] + [n] + RowR(an.c, an.r))
      && (at.r.Nil? ==> Inorder(s) == RowL(an.c, an.l) + [n] + [t] + RowR(at.c, at.r))
  {
    hide Bal, Height, Linked, CtxLinked, CtxBal, Inorder, Nodes, CtxNodes, Disj, CtxDisj, Before, After, Threaded;
    hide RowL, RowR, NoDup;
    var ts := Node(at.l, t, at.r);
    WholeZip(m, at.c, ts);
    ChildIsLeaf(m, t, at);
    var n, an := OnlyChild(at).n, ChildSpot(t, at);
    ChildLinked(m, CtxParent(at.c), CtxSide(at.c), t, at, n);
    NodeRow(m, at.c, at.l, t, at.r);
    assert Sits(s, n, an);
    HalfLeafRows(at, t, n);
    HalfLeafRow(RowL(at.c, at.l), t, RowR(at.c, at.r), n, RowL(an.c, an.l), RowR(an.c, an.r), at.l.Nil?, Inorder(s));
    DisjNoDup(s);
    Neighbours(s, t, n, at.l.Nil?, if at.l.Nil? then RowL(at.c, at.l) else RowL(an.c, an.l),
        if at.l.Nil? then RowR(an.c, an.r) else RowR(at.c, at.r));
  }

  lemma {:induction false} HalfLeafRow(a: seq<TNode>, t: TNode, b: seq<TNode>, n: TNode, a': seq<TNode>,
        b': seq<TNode>, right: bool, q: seq<TNode>)
    requires q == a + [t] + b && (if right then b == [n] + b' else a == a' + [n])
    ensures q == if right then a + [t] + [n] + b' else a' + [n] + [t] + b
  {
  }

  lemma {:induction false} Neighbours(s: TShape, t: TNode, n: TNode, right: bool, a: seq<TNode>, b: seq<TNode>)
    requires NoDup(Inorder(s)) && Inorder(s) == if right then a + [t] + [n] + b else a + [n] + [t] + b
    ensures n != t
  {
    hide Inorder;
    var q := Inorder(s);
    assert {q[|a|], q[|a| + 1]} == {n, t};
  }

  lemma {:induction false} HalfLeafRows(at: Spot, t: TNode, n: TNode)
    requires (at.l.Nil? && at.r == Node(Nil, n, Nil)) || (at.r.Nil? && at.l == Node(Nil, n, Nil))
    ensures var an := ChildSpot(t, at);
      && (at.l.Nil? ==> RowR(at.c, at.r) == [n] + RowR(an.c, an.r))
      && (at.r.Nil? ==> RowL(at.c, at.l) == RowL(an.c, an.l) + [n])
  {
    LeafFacts(n);
    var an := ChildSpot(t, at);
    assert Inorder(an.l) == [] && Inorder(an.r) == [];
    if at.l.Nil? {
      assert RowR(an.c, an.r) == [] + After(an.c) == After(at.c);
    } else {
      assert RowL(an.c, an.l) == Before(an.c) + [] == Before(at.c);
    }
  }

  /** A half-leaf `t` that has taken all keys of its child `n`. */
  lemma {:induction false} MergeTree(m: Fields, m': Fields, s: TShape, t: TNode, at: Spot, n: TNode)
    requires Part(m, s, t) && Sits(s, t, at) && t in m && (at.l.Nil? <==> !at.r.Nil?)
    requires n == Root(OnlyChild(at)) && n in m && n != t && KeysOnly(m, m', {t, n}) && m'[n].items == []
    requires m'[t].items == if m[n].side == Right then m[t].items + m[n].items else m[n].items + m[t].items
    ensures Part(m', s, n) && Flat(m', Inorder(s)) == Flat(m, Inorder(s))
  {
    hide Flat, Inorder, RowL, RowR, Bare, Ascending, ChildSpot, Plug;
    HalfLeaf(m, s, t, at);
    var an := ChildSpot(t, at);
    NoneLeft(m'[t].items, m'[n].items);
    if at.l.Nil? {
      PairTree(m, m', s, RowL(at.c, at.l), t, n, RowR(an.c, an.r), t, n);
    } else {
      assert {t, n} == {n, t};
      PairTree(m, m', s, RowL(an.c, an.l), n, t, RowR(at.c, at.r), t, n);
    }
  }

  lemma {:induction false} NoneLeft(a: seq<int>, b: seq<int>)
    requires b == []
    ensures a + b == a && b + a == a
  {
  }
}
