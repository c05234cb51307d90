/**
 Putting a key into a node of a T*-tree, and passing the largest key of a full
 node on to its successor (kernel/ds/ttree.c).
 */
module TInsert {
  import opened Shapes
  import opened TNodes
  import opened TLinks
  import opened TContent
  import opened TGrow
  import opened TKeys
  import opened TSearch

  /** `q` with `key` put in at position `r`. */
  ghost function Inserted(q: seq<int>, r: int, key: int): seq<int>
    requires 0 <= r <= |q|
  {
    q[..r] + [key] + q[r..]
  }

  /** The number of keys before position `p` of node `x`. */
  ghost function Rank(m: Fields, at: Spot, p: int): int { |Flat(m, RowL(at.c, at.l))| + p }

  lemma {:induction false} InsertedParts(a: seq<int>, i: seq<int>, b: seq<int>, p: int, key: int)
    requires 0 <= p <= |i|
    ensures Inserted(a + i + b, |a| + p, key) == a + (i[..p] + [key] + i[p..]) + b
  {
    var q := a + i + b;
    assert q[..|a| + p] == a + i[..p];
    assert q[|a| + p..] == i[p..] + b;
  }

  lemma {:induction false} InsertedAscending(q: seq<int>, r: int, key: int)
    requires Ascending(q) && 0 <= r <= |q| && Below(q[..r], key) && Above(q[r..], key)
    ensures Ascending(Inserted(q, r, key))
  {
    assert q == q[..r] + q[r..];
    StaysAscending(q[..r], key, q[r..]);
  }

  /** `At` in terms of all keys of the tree. */
  lemma {:induction false} AtRank(m: Fields, s: TShape, x: TNode, at: Spot, p: int, key: int)
    requires Sits(s, x, at) && At(m, at.c, at.l, x, at.r, p, key)
    ensures var q, r := Flat(m, Inorder(s)), Rank(m, at, p);
      0 <= r <= |q| && Below(q[..r], key) && Above(q[r..], key)
  {
    NodeRow(m, at.c, at.l, x, at.r);
    RankParts(Flat(m, RowL(at.c, at.l)), m[x].items, Flat(m, RowR(at.c, at.r)), p, key);
  }

  lemma {:induction false} RankParts(a: seq<int>, i: seq<int>, b: seq<int>, p: int, key: int)
    requires 0 <= p <= |i| && Below(a, key) && Below(i[..p], key) && Above(i[p..], key) && Above(b, key)
    ensures Below((a + i + b)[..|a| + p], key) && Above((a + i + b)[|a| + p..], key)
  {
    var q := a + i + b;
    assert q[..|a| + p] == a + i[..p];
    assert q[|a| + p..] == i[p..] + b;
  }

  lemma {:induction false} SitsNoDup(m: Fields, s: TShape, x: TNode, at: Spot)
    requires Disj(s) && Sits(s, x, at)
    ensures NoDup(RowL(at.c, at.l) + [x] + RowR(at.c, at.r))
    ensures Inorder(s) == RowL(at.c, at.l) + [x] + RowR(at.c, at.r)
  {
    DisjNoDup(s);
    NodeRow(m, at.c, at.l, x, at.r);
  }

  /** A key put into a node at its place keeps the tree a tree. */
  lemma {:induction false} PutTree(m: Fields, m': Fields, s: TShape, x: TNode, at: Spot, p: int, key: int)
    requires Tree(m, s) && Sits(s, x, at) && At(m, at.c, at.l, x, at.r, p, key) && KeysOnly(m, m', {x})
    requires m'[x].items == m[x].items[..p] + [key] + m[x].items[p..]
    ensures Tree(m', s)
    ensures 0 <= Rank(m, at, p) <= |Flat(m, Inorder(s))|
    ensures Flat(m', Inorder(s)) == Inserted(Flat(m, Inorder(s)), Rank(m, at, p), key)
  {
    hide Flat, Inorder, Linked, Bal, Nodes, Disj, Before, After, Plug, NoDup, Below, Above, Ascending, Inserted, RowL;
    hide RowR, Threaded;
    AtRank(m, s, x, at, p, key);
    SitsNoDup(m, s, x, at);
    FlatOneChanged(m, m', RowL(at.c, at.l), x, RowR(at.c, at.r));
    InsertedParts(Flat(m, RowL(at.c, at.l)), m[x].items, Flat(m, RowR(at.c, at.r)), p, key);
    InsertedAscending(Flat(m, Inorder(s)), Rank(m, at, p), key);
    BareFrame(m, m', s);
  }

  lemma {:induction false} DropAscending(a: seq<int>, k: int, b: seq<int>)
    requires Ascending(a + [k] + b)
    ensures Ascending(a + b) && Below(a, k) && Above(b, k)
  {
    var q := a + [k] + b;
    assert forall j :: 0 <= j < |a| ==> q[j] == a[j];
    assert forall j :: 0 <= j < |b| ==> q[|a| + 1 + j] == b[j];
    assert q[|a|] == k;
    forall i, j | 0 <= i < j < |a + b| ensures (a + b)[i] <= (a + b)[j] {
      assert (a + b)[i] == q[if i < |a| then i else i + 1];
      assert (a + b)[j] == q[if j < |a| then j else j + 1];
    }
  }

  /** What exchanging the largest key of a node for a smaller one does to the keys of the tree. */
  lemma {:induction false} SwapParts(a: seq<int>, i: seq<int>, b: seq<int>, p: int, key: int)
    requires Ascending(a + i + b) && 0 <= p < |i| && Below(a, key) && Below(i[..p], key) && Above(i[p..], key)
    requires Above(b, key)
    ensures var last, j := i[|i| - 1], i[..p] + [key] + i[p..|i| - 1];
      && Ascending(a + j + b) && Below(a, last) && Below(j, last) && Above(b, last)
      && a + j + [last] + b == Inserted(a + i + b, |a| + p, key)
  {
    var last, short := i[|i| - 1], i[..|i| - 1];
    var j := i[..p] + [key] + i[p..|i| - 1];
    assert i == short + [last];
    Shift(a, short, last, b);
    DropAscending(a + short, last, b);
    assert short[..p] == i[..p] && short[p..] == i[p..|i| - 1];
    BelowCut(a, short, last);
    AboveCut(i, p, key);
    SwapOrder(a, short, b, p, key);
    assert i[p..] == i[p..|i| - 1] + [last];
    assert j + [last] == i[..p] + [key] + i[p..];
    InsertedParts(a, i, b, p, key);
    Tail(a, j, [last]);
    assert last == i[p..][|i| - 1 - p];
  }

  lemma {:induction false} Shift(a: seq<int>, s: seq<int>, l: int, b: seq<int>)
    ensures a + (s + [l]) + b == a + s + [l] + b
  {
  }

  lemma {:induction false} BelowCut(a: seq<int>, s: seq<int>, l: int)
    requires Below(a + s, l)
    ensures Below(a, l) && Below(s, l)
  {
    assert forall j :: 0 <= j < |a| ==> (a + s)[j] == a[j];
    assert forall j :: 0 <= j < |s| ==> (a + s)[|a| + j] == s[j];
  }

  lemma {:induction false} AboveCut(i: seq<int>, p: int, key: int)
    requires 0 <= p < |i| && Above(i[p..], key)
    ensures Above(i[p..|i| - 1], key)
  {
    assert forall j :: 0 <= j < |i[p..|i| - 1]| ==> i[p..|i| - 1][j] == i[p..][j];
  }

  lemma {:induction false} SwapOrder(a: seq<int>, s: seq<int>, b: seq<int>, p: int, key: int)
    requires Ascending(a + s + b) && 0 <= p <= |s| && Below(a, key) && Below(s[..p], key) && Above(s[p..], key)
    requires Above(b, key)
    ensures Ascending(a + (s[..p] + [key] + s[p..]) + b)
  {
    RankParts(a, s, b, p, key);
    InsertedAscending(a + s + b, |a| + p, key);
    InsertedParts(a, s, b, p, key);
  }

  /** After a full node gave up its largest key for `key`: a tree again, with the place right behind the node free. */
  lemma {:induction false} SwapTree(m: Fields, m': Fields, s: TShape, x: TNode, at: Spot, p: int, key: int)
    requires Tree(m, s) && Sits(s, x, at) && At(m, at.c, at.l, x, at.r, p, key) && p < |m[x].items|
    requires KeysOnly(m, m', {x})
    requires m'[x].items == m[x].items[..p] + [key] + m[x].items[p..|m[x].items| - 1]
    ensures Tree(m', s) && 0 <= Rank(m, at, p) <= |Flat(m, Inorder(s))|
    ensures var last := m[x].items[|m[x].items| - 1];
      && At(m', at.c, at.l, x, at.r, |m'[x].items|, last)
      && Flat(m', RowL(at.c, at.l)) + m'[x].items + [last] + Flat(m', RowR(at.c, at.r))
         == Inserted(Flat(m, Inorder(s)), Rank(m, at, p), key)
  {
    hide Flat, Inorder, Linked, Bal, Nodes, Disj, Before, After, Plug, NoDup, Below, Above, Ascending, Inserted, RowL;
    hide RowR, Threaded;
    AtRank(m, s, x, at, p, key);
    SitsNoDup(m, s, x, at);
    FlatOneChanged(m, m', RowL(at.c, at.l), x, RowR(at.c, at.r));
    SwapParts(Flat(m, RowL(at.c, at.l)), m[x].items, Flat(m, RowR(at.c, at.r)), p, key);
    BareFrame(m, m', s);
    SwapRows(m, m', s, x, at);
    WholeItems(m'[x].items, m[x].items[|m[x].items| - 1]);
  }

  lemma {:induction false} WholeItems(i: seq<int>, key: int)
    requires Below(i, key)
    ensures Below(i[..|i|], key) && Above(i[|i|..], key)
  {
  }

  lemma {:induction false} SwapRows(m: Fields, m': Fields, s: TShape, x: TNode, at: Spot)
    requires KeysOnly(m, m', {x}) && NoDup(RowL(at.c, at.l) + [x] + RowR(at.c, at.r))
    ensures Flat(m', RowL(at.c, at.l)) == Flat(m, RowL(at.c, at.l))
    ensures Flat(m', RowR(at.c, at.r)) == Flat(m, RowR(at.c, at.r))
  {
    hide RowL, RowR, Flat;
    RowWithout(RowL(at.c, at.l), x, RowR(at.c, at.r));
    FlatFrame(m, m', RowL(at.c, at.l));
    FlatFrame(m, m', RowR(at.c, at.r));
  }

  /** The leftmost node of a subtree and where it sits. */
  ghost function LeftmostNode(t: TShape): TNode
    requires t.Node?
  {
    if t.l.Nil? then t.n else LeftmostNode(t.l)
  }

  ghost function LeftmostSpot(c: TCtx, t: TShape): Spot
    requires t.Node?
    decreases t
  {
    if t.l.Nil? then Spot(c, Nil, t.r) else LeftmostSpot(InLeft(c, t.n, t.r), t.l)
  }

  lemma {:induction false} LeftmostSits(c: TCtx, t: TShape)
    requires t.Node?
    ensures Sits(Plug(c, t), LeftmostNode(t), LeftmostSpot(c, t))
    ensures Before(LeftmostSpot(c, t).c) == Before(c) && LeftmostSpot(c, t).l.Nil?
    ensures LeftmostNode(t) == Inorder(t)[0]
    decreases t
  {
    if !t.l.Nil? {
      LeftmostSits(InLeft(c, t.n, t.r), t.l);
    }
  }

  lemma {:induction false} LeftmostRow(x: TNode, at: Spot)
    requires at.r.Node?
    ensures var sy := LeftmostSpot(InRight(at.l, x, at.c), at.r);
      sy.l.Nil? && RowL(sy.c, sy.l) == RowL(at.c, at.l) + [x]
  {
    hide Plug, Inorder, LeftmostSpot, LeftmostNode;
    var h := InRight(at.l, x, at.c);
    LeftmostSits(h, at.r);
    var sy := LeftmostSpot(h, at.r);
    LeafInorder(sy.l);
    assert RowL(sy.c, sy.l) == Before(sy.c) + [] == Before(h);
  }

  lemma {:induction false} LeafInorder(s: TShape)
    requires s.Nil?
    ensures Inorder(s) == []
  {
  }

  /** The successor of a node with a right child is the leftmost node of its right subtree. */
  lemma {:induction false} SuccessorSpot(m: Fields, s: TShape, x: TNode, at: Spot)
    requires Disj(s) && Threaded(m, Inorder(s)) && Sits(s, x, at) && at.r.Node? && x in m
    ensures var y, sy := LeftmostNode(at.r), LeftmostSpot(InRight(at.l, x, at.c), at.r);
      && m[x].successor == y && y in m && y != x && Sits(s, y, sy) && sy.l.Nil?
      && RowL(sy.c, sy.l) == RowL(at.c, at.l) + [x]
      && RowR(at.c, at.r) == [y] + RowR(sy.c, sy.r)
  {
    hide Inorder, RowL, RowR, LeftmostSpot, LeftmostNode, Before, After, Disj, NoDup;
    var h := InRight(at.l, x, at.c);
    LeftmostSits(h, at.r);
    LeftmostRow(x, at);
    var y, sy := LeftmostNode(at.r), LeftmostSpot(h, at.r);
    NodeRow(m, at.c, at.l, x, at.r);
    NodeRow(m, sy.c, sy.l, y, sy.r);
    DisjNoDup(s);
    SuccessorRow(m, RowL(at.c, at.l), x, RowR(at.c, at.r), y, RowR(sy.c, sy.r), Inorder(s));
  }

  lemma {:induction false} SuccessorRow(m: Fields, a: seq<TNode>, x: TNode, b: seq<TNode>, y: TNode, d: seq<TNode>,
        q: seq<TNode>)
    requires q == a + [x] + b && q == (a + [x]) + [y] + d && Threaded(m, q) && x in m && NoDup(q)
    ensures m[x].successor == y && b == [y] + d && y in m && y != x
  {
    assert q[|a|] == x && q[|a| + 1] == y;
    assert b == q[|a| + 1..] && [y] + d == q[|a| + 1..];
  }

  ghost function SideHole(x: TNode, at: Spot, side: Side): TCtx {
    if side == Left then InLeft(at.c, x, at.r) else InRight(at.l, x, at.c)
  }

  /** A key that belongs before or behind all keys of a node without a child there fits into that empty place. */
  lemma {:induction false} AtFits(m: Fields, s: TShape, x: TNode, at: Spot, p: int, side: Side, key: int)
    requires Sits(s, x, at) && At(m, at.c, at.l, x, at.r, p, key)
    requires (side == Left && at.l.Nil? && p == 0) || (side == Right && at.r.Nil? && p == |m[x].items|)
    ensures var h := SideHole(x, at, side);
      && Plug(h, Nil) == s && Fits(m, h, key) && h.n == x && CtxSide(h) == side
      && 0 <= Rank(m, at, p) <= |Flat(m, Inorder(s))|
      && Flat(m, Before(h)) + [key] + Flat(m, After(h)) == Inserted(Flat(m, Inorder(s)), Rank(m, at, p), key)
  {
    NodeRow(m, at.c, at.l, x, at.r);
    var a, i, b := Flat(m, RowL(at.c, at.l)), m[x].items, Flat(m, RowR(at.c, at.r));
    InsertedParts(a, i, b, p, key);
    FlatOne(m, x);
    if side == Left {
      assert RowL(at.c, at.l) == Before(at.c);
      Tail([x], Inorder(at.r), After(at.c));
      FlatAppend(m, [x], RowR(at.c, at.r));
      Above3(i, b, key) by { assert i[0..] == i; }
      assert a + (i[..0] + [key] + i[0..]) + b == a + [key] + (i + b);
    } else {
      assert RowR(at.c, at.r) == After(at.c);
      FlatAppend(m, RowL(at.c, at.l), [x]);
      Below3(a, i, key) by { assert i[..|i|] == i; }
      assert a + (i[..|i|] + [key] + i[|i|..]) + b == a + i + [key] + b;
    }
  }

  /** The key a full node gives up belongs before all keys of the node's successor. */
  lemma {:induction false} PassOn(m: Fields, s: TShape, x: TNode, at: Spot, last: int)
    requires Tree(m, s) && Sits(s, x, at) && at.r.Node? && x in m && At(m, at.c, at.l, x, at.r, |m[x].items|, last)
    ensures var y, sy := LeftmostNode(at.r), LeftmostSpot(InRight(at.l, x, at.c), at.r);
      && m[x].successor == y && y in m && Sits(s, y, sy) && sy.l.Nil? && At(m, sy.c, sy.l, y, sy.r, 0, last)
      && Rank(m, sy, 0) == Rank(m, at, |m[x].items|)
  {
    SuccessorSpot(m, s, x, at);
    var y, sy := LeftmostNode(at.r), LeftmostSpot(InRight(at.l, x, at.c), at.r);
    SitsIn(m, s, y, sy);
    hide RowL, RowR, Flat, Tree, Sits, LeftmostNode, LeftmostSpot;
    FlatAppend(m, RowL(at.c, at.l), [x]);
    FlatOne(m, x);
    FlatAppend(m, [y], RowR(sy.c, sy.r));
    FlatOne(m, y);
    PassParts(Flat(m, RowL(at.c, at.l)), m[x].items, m[y].items, Flat(m, RowR(sy.c, sy.r)), last);
  }

  lemma {:induction false} PassParts(a: seq<int>, i: seq<int>, j: seq<int>, b: seq<int>, last: int)
    requires Below(a, last) && Below(i[..|i|], last) && Above(j + b, last)
    ensures Below(a + i, last) && Below(j[..0], last) && Above(j[0..], last) && Above(b, last)
  {
    assert i[..|i|] == i && j[0..] == j;
    Below3(a, i, last);
    assert forall n :: 0 <= n < |b| ==> (j + b)[|j| + n] == b[n];
    assert forall n :: 0 <= n < |j| ==> (j + b)[n] == j[n];
  }
}
