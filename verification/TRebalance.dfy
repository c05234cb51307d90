/**
 Rebalancing one subtree of a T*-tree (kernel/ds/ttree.c).  Besides the rotation,
 a node with one key that a double rotation lifts above two leaves takes over all
 keys but one of one of them.
 */
module TRebalance {
  import opened Shapes
  import opened TNodes
  import opened TLinks
  import opened TContent
  import opened TRotate
  import opened TBalance

  ghost predicate Filled(m: Fields) { forall n :: n in m ==> m[n].items != [] }

  /** Every window of the tree shows its keys; no two nodes share an array. */
  ghost predicate Windows(ns: set<TNode>, k: int)
    reads ns`minIdx, ns`maxIdx, ns`items, set n | n in ns :: n.keys
  {
    && (forall n :: n in ns ==> n.Window(k))
    && (forall n, o :: n in ns && o in ns && n != o ==> n.keys != o.keys)
  }

  /** The subtree `s` of the context became `s'`, balanced, with the same nodes and keys in order. */
  ghost predicate Rebalanced(m: Fields, m': Fields, c: TCtx, s: TShape, s': TShape) {
    && Sound(m', c, s') && s'.Node? && m'.Keys == m.Keys && s'.n in m'
    && Inorder(s') == Inorder(s) && Nodes(s') == Nodes(s)
    && Height(s') == Height(s) - (if m'[s'.n].bfc == 0 then 1 else 0)
    && Flat(m', Inorder(s')) == Flat(m, Inorder(s))
    && (forall n :: n in m ==> m'[n].successor == m[n].successor)
    && (forall n :: n in m && n !in Nodes(s) ==> m'[n].items == m[n].items && m'[n].bfc == m[n].bfc)
  }

  lemma {:induction false} PivotsLeft(m: Fields, c: TCtx, a: TShape, s: TNode, b: TShape, p: TNode, d: TShape)
    requires Apart(c, Node(Node(a, s, b), p, d)) && Zip(m, c, Node(Node(a, s, b), p, d))
    ensures Pivots(m, p, Left, s, Root(b), CtxParent(c))
  {
    FiveApart(c, a, s, b, p, d);
    assert Linked(m, Node(a, s, b), p, Left);
    assert Linked(m, b, s, Right);
    assert b.Node? ==> b.n in Nodes(b);
    assert !c.Top? ==> c.n in CtxNodes(c);
  }

  lemma {:induction false} PivotsRight(m: Fields, c: TCtx, a: TShape, p: TNode, b: TShape, s: TNode, d: TShape)
    requires Apart(c, Node(a, p, Node(b, s, d))) && Zip(m, c, Node(a, p, Node(b, s, d)))
    ensures Pivots(m, p, Right, s, Root(b), CtxParent(c))
  {
    Reassociate(a, p, b, s, d);
    FiveApart(c, a, p, b, s, d);
    assert Linked(m, Node(b, s, d), p, Right);
    assert Linked(m, b, s, Left);
    assert b.Node? ==> b.n in Nodes(b);
    assert !c.Top? ==> c.n in CtxNodes(c);
  }

  /** What the two rotations have in common. */
  lemma {:induction false} Settled(m: Fields, m': Fields, c: TCtx, s: TShape, s': TShape)
    requires Sound(m', c, s') && SameContent(m, m') && s'.Node? && s'.n in m'
    requires Inorder(s') == Inorder(s) && Nodes(s') == Nodes(s)
    requires Height(s') == Height(s) - (if m'[s'.n].bfc == 0 then 1 else 0)
    requires forall n :: n in m && n !in Nodes(s) ==> m'[n].bfc == m[n].bfc
    ensures Rebalanced(m, m', c, s, s')
  {
    FlatFrame(m, m', Inorder(s));
  }

  lemma {:induction false} TurnedNodes(a: TShape, s: TNode, b: TShape, p: TNode, d: TShape)
    ensures Nodes(Node(Node(a, s, b), p, d)) == Nodes(Node(a, s, Node(b, p, d)))
    ensures s in Nodes(Node(a, s, Node(b, p, d))) && p in Nodes(Node(a, s, Node(b, p, d)))
  {
  }

  lemma {:induction false} TallerBy(l: TShape, p: TNode, r: TShape)
    requires Height(l) == Height(r) + 2 || Height(r) == Height(l) + 2
    ensures Height(Node(l, p, r)) == 3 + if Height(l) < Height(r) then Height(l) else Height(r)
  {
  }

  lemma {:induction false} SingleLeftDone(m: Fields, m': Fields, c: TCtx, a: TShape, s: TNode, b: TShape, p: TNode,
        d: TShape)
    requires Apart(c, Node(Node(a, s, b), p, d)) && Zip(m, c, Node(Node(a, s, b), p, d))
    requires Bal(m, Node(a, s, b)) && Bal(m, d) && p in m
    requires Height(Node(a, s, b)) == Height(d) + 2 && m[s].bfc <= 0
    requires Rotates(m, m', p, Left, s, Root(b), CtxParent(c),
                     LoweredBfc(WithChild(m[p], Left, Root(b)), Left, m[s].bfc), m[s].bfc + 1)
    ensures Rebalanced(m, m', c, Node(Node(a, s, b), p, d), Node(a, s, Node(b, p, d))) && SameContent(m, m')
  {
    hide Linked, CtxLinked, Bal, Height, Nodes, CtxNodes, Disj, CtxDisj, Inorder, Rotates, SameContent, Rebalanced;
    PivotsLeft(m, c, a, s, b, p, d);
    SingleLeft(m, m', c, a, s, b, p, d);
    TurnedNodes(a, s, b, p, d);
    TallerBy(Node(a, s, b), p, d);
    Reassociate(a, s, b, p, d);
    RotatesContent(m, m', p, Left, s, Root(b), CtxParent(c),
                   LoweredBfc(WithChild(m[p], Left, Root(b)), Left, m[s].bfc), m[s].bfc + 1);
    Settled(m, m', c, Node(Node(a, s, b), p, d), Node(a, s, Node(b, p, d)));
  }

  lemma {:induction false} SingleRightDone(m: Fields, m': Fields, c: TCtx, a: TShape, p: TNode, b: TShape, s: TNode,
        d: TShape)
    requires Apart(c, Node(a, p, Node(b, s, d))) && Zip(m, c, Node(a, p, Node(b, s, d)))
    requires Bal(m, a) && Bal(m, Node(b, s, d)) && p in m
    requires Height(Node(b, s, d)) == Height(a) + 2 && m[s].bfc >= 0
    requires Rotates(m, m', p, Right, s, Root(b), CtxParent(c),
                     LoweredBfc(WithChild(m[p], Right, Root(b)), Right, m[s].bfc), m[s].bfc - 1)
    ensures Rebalanced(m, m', c, Node(a, p, Node(b, s, d)), Node(Node(a, p, b), s, d)) && SameContent(m, m')
  {
    hide Linked, CtxLinked, Bal, Height, Nodes, CtxNodes, Disj, CtxDisj, Inorder, Rotates, SameContent, Rebalanced;
    PivotsRight(m, c, a, p, b, s, d);
    SingleRight(m, m', c, a, p, b, s, d);
    TurnedNodes(a, p, b, s, d);
    TallerBy(a, p, Node(b, s, d));
    Reassociate(a, p, b, s, d);
    RotatesContent(m, m', p, Right, s, Root(b), CtxParent(c),
                   LoweredBfc(WithChild(m[p], Right, Root(b)), Right, m[s].bfc), m[s].bfc - 1);
    Settled(m, m', c, Node(a, p, Node(b, s, d)), Node(Node(a, p, b), s, d));
  }

  lemma {:induction false} HigherIsNode(m: Fields, l: TShape, r: TShape)
    requires Bal(m, l)
    ensures Height(l) > Height(r) ==> l.Node? && l.n in m && -1 <= m[l.n].bfc <= 1
  {
  }

  /** Single rotation towards the lighter side; `l` or `r` is the heavier one. */
  method Single(ghost ns: set<TNode>, p: TNode, side: Side, ghost c: TCtx, ghost l: TShape, ghost r: TShape)
    returns (t: TNode, ghost s': TShape)
    requires side != Undef && p in ns
    requires Apart(c, Node(l, p, r)) && Zip(Snap(ns), c, Node(l, p, r))
    requires Bal(Snap(ns), l) && Bal(Snap(ns), r)
    requires if side == Left then Height(l) == Height(r) + 2 && Snap(ns)[l.n].bfc <= 0
             else Height(r) == Height(l) + 2 && Snap(ns)[r.n].bfc >= 0
    modifies ns`parent, ns`side, ns`left, ns`right, ns`bfc
    ensures Root(s') == t && Rebalanced(old(Snap(ns)), Snap(ns), c, Node(l, p, r), s')
    ensures SameContent(old(Snap(ns)), Snap(ns))
    ensures old(p.Child(side)) != null && (old(p.Child(side).bfc) != 0 ==> t.bfc == 0)
  {
    hide Rebalanced, Linked, CtxLinked, Disj, CtxDisj, Nodes, CtxNodes, Inorder, SameContent, Bal, Height;
    ghost var m := Snap(ns);
    HigherIsNode(m, l, r);
    HigherIsNode(m, r, l);
    if side == Left {
      PivotsLeft(m, c, l.l, l.n, l.r, p, r);
      t := RotateSingle(ns, p, Left, l.n, Root(l.r), CtxParent(c));
      SingleLeftDone(m, Snap(ns), c, l.l, l.n, l.r, p, r);
      s' := Node(l.l, l.n, Node(l.r, p, r));
    } else {
      PivotsRight(m, c, l, p, r.l, r.n, r.r);
      t := RotateSingle(ns, p, Right, r.n, Root(r.l), CtxParent(c));
      SingleRightDone(m, Snap(ns), c, l, p, r.l, r.n, r.r);
      s' := Node(Node(l, p, r.l), r.n, r.r);
    }
  }

  lemma {:induction false} RegroupDouble(a: TShape, x: TNode, b: TShape, g: TNode, d: TShape, y: TNode, e: TShape)
    ensures var s := Node(Node(a, x, b), g, Node(d, y, e));
      var sl, sr := Node(Node(a, x, Node(b, g, d)), y, e), Node(a, x, Node(Node(b, g, d), y, e));
      && Inorder(sl) == Inorder(s) == Inorder(sr) && Nodes(sl) == Nodes(s) == Nodes(sr)
  {
    Reassociate(a, x, b, g, d);
    Reassociate(Node(a, x, b), g, d, y, e);
    Reassociate(a, x, Node(b, g, d), y, e);
  }

  lemma {:induction false} DoublePivotsLeft(m: Fields, c: TCtx, a: TShape, x: TNode, b: TShape, g: TNode, d: TShape,
        p: TNode, e: TShape)
    requires Apart(c, Node(Node(a, x, Node(b, g, d)), p, e)) && Zip(m, c, Node(Node(a, x, Node(b, g, d)), p, e))
    ensures DoublePivots(m, p, Left, x, g, Root(b), Root(d), CtxParent(c))
  {
    var q := Node(b, g, d);
    PivotsLeft(m, c, a, x, q, p, e);
    ApartDown(c, Node(a, x, q), p, e);
    ZipDown(m, c, Node(a, x, q), p, e);
    PivotsRight(m, InLeft(c, p, e), a, x, b, g, d);
    ApartDown(InLeft(c, p, e), a, x, q);
    assert Linked(m, Node(a, x, q), p, Left);
    assert Linked(m, q, x, Right);
    assert Linked(m, d, g, Right);
    FarApart(InRight(a, x, InLeft(c, p, e)), b, g, d);
    assert {x, p} + CtxNodes(c) <= CtxNodes(InRight(a, x, InLeft(c, p, e)));
    assert !c.Top? ==> c.n in CtxNodes(c);
    assert e.Node? ==> e.n in CtxNodes(InLeft(c, p, e)) && x in Nodes(Node(a, x, q));
  }

  lemma {:induction false} FarApart(c: TCtx, b: TShape, g: TNode, d: TShape)
    requires Apart(c, Node(b, g, d))
    ensures Root(b) != g && Root(d) != g && (d.Node? ==> Root(b) != Root(d))
    ensures g !in CtxNodes(c) && (b.Node? ==> b.n !in CtxNodes(c)) && (d.Node? ==> d.n !in CtxNodes(c))
  {
    assert b.Node? ==> b.n in Nodes(b);
    assert d.Node? ==> d.n in Nodes(d);
  }

  lemma {:induction false} DoublePivotsRight(m: Fields, c: TCtx, a: TShape, p: TNode, b: TShape, g: TNode, d: TShape,
        x: TNode, e: TShape)
    requires Apart(c, Node(a, p, Node(Node(b, g, d), x, e))) && Zip(m, c, Node(a, p, Node(Node(b, g, d), x, e)))
    ensures DoublePivots(m, p, Right, x, g, Root(d), Root(b), CtxParent(c))
  {
    var q := Node(b, g, d);
    PivotsRight(m, c, a, p, q, x, e);
    ApartDown(c, a, p, Node(q, x, e));
    ZipDown(m, c, a, p, Node(q, x, e));
    PivotsLeft(m, InRight(a, p, c), b, g, d, x, e);
    ApartDown(InRight(a, p, c), q, x, e);
    assert Linked(m, Node(q, x, e), p, Right);
    assert Linked(m, q, x, Left);
    assert Linked(m, b, g, Left);
    FarApart(InLeft(InRight(a, p, c), x, e), b, g, d);
    assert {x, p} + CtxNodes(c) <= CtxNodes(InLeft(InRight(a, p, c), x, e));
    assert !c.Top? ==> c.n in CtxNodes(c);
    assert a.Node? ==> a.n in CtxNodes(InRight(a, p, c)) && x in Nodes(Node(q, x, e));
  }

  lemma {:induction false} DoubleLeftDone(m: Fields, mid: Fields, m': Fields, c: TCtx, a: TShape, x: TNode, b: TShape,
                                          g: TNode, d: TShape, p: TNode, e: TShape)
    requires Apart(c, Node(Node(a, x, Node(b, g, d)), p, e)) && Zip(m, c, Node(Node(a, x, Node(b, g, d)), p, e))
    requires Bal(m, Node(a, x, Node(b, g, d))) && Bal(m, e)
    requires Height(Node(a, x, Node(b, g, d))) == Height(e) + 2 && m[x].bfc == 1
    requires p in m && g in m
    requires Rotates(m, mid, x, Right, g, Root(b), p,
      SplitBfc(WithChild(m[x], Right, Root(b)), Left, m[g].bfc), m[g].bfc)
    requires Rotates(mid, m', p, Left, g, Root(d), CtxParent(c),
      SplitBfc(WithChild(m[p], Left, Root(d)), Right, m[g].bfc), 0)
    ensures Rebalanced(m, m', c, Node(Node(a, x, Node(b, g, d)), p, e), Node(Node(a, x, b), g, Node(d, p, e)))
    ensures SameContent(m, m')
  {
    var s, s' := Node(Node(a, x, Node(b, g, d)), p, e), Node(Node(a, x, b), g, Node(d, p, e));
    DoubleLeft(m, mid, m', c, a, x, b, g, d, p, e);
    RegroupDouble(a, x, b, g, d, p, e);
    DoublePivotsLeft(m, c, a, x, b, g, d, p, e);
    DoubleContent(m, mid, m', Left, x, g, Root(b), p, Root(d), CtxParent(c),
                  SplitBfc(WithChild(m[x], Right, Root(b)), Left, m[g].bfc), m[g].bfc,
                  SplitBfc(WithChild(m[p], Left, Root(d)), Right, m[g].bfc));
    assert {x} <= Nodes(Node(a, x, b)) && {p} <= Nodes(Node(d, p, e)) && {x, g, p} <= Nodes(s');
    Settled(m, m', c, s, s');
  }

  lemma {:induction false} DoubleRightDone(m: Fields, mid: Fields, m': Fields, c: TCtx, a: TShape, p: TNode, b: TShape,
                                           g: TNode, d: TShape, x: TNode, e: TShape)
    requires Apart(c, Node(a, p, Node(Node(b, g, d), x, e))) && Zip(m, c, Node(a, p, Node(Node(b, g, d), x, e)))
    requires Bal(m, a) && Bal(m, Node(Node(b, g, d), x, e))
    requires Height(Node(Node(b, g, d), x, e)) == Height(a) + 2 && m[x].bfc == -1
    requires p in m && g in m
    requires Rotates(m, mid, x, Left, g, Root(d), p,
      SplitBfc(WithChild(m[x], Left, Root(d)), Right, m[g].bfc), m[g].bfc)
    requires Rotates(mid, m', p, Right, g, Root(b), CtxParent(c),
      SplitBfc(WithChild(m[p], Right, Root(b)), Left, m[g].bfc), 0)
    ensures Rebalanced(m, m', c, Node(a, p, Node(Node(b, g, d), x, e)), Node(Node(a, p, b), g, Node(d, x, e)))
    ensures SameContent(m, m')
  {
    var s, s' := Node(a, p, Node(Node(b, g, d), x, e)), Node(Node(a, p, b), g, Node(d, x, e));
    DoubleRight(m, mid, m', c, a, p, b, g, d, x, e);
    RegroupDouble(a, p, b, g, d, x, e);
    DoublePivotsRight(m, c, a, p, b, g, d, x, e);
    DoubleContent(m, mid, m', Right, x, g, Root(d), p, Root(b), CtxParent(c),
                  SplitBfc(WithChild(m[x], Left, Root(d)), Right, m[g].bfc), m[g].bfc,
                  SplitBfc(WithChild(m[p], Right, Root(b)), Left, m[g].bfc));
    assert {p} <= Nodes(Node(a, p, b)) && {x} <= Nodes(Node(d, x, e)) && {x, g, p} <= Nodes(s');
    Settled(m, m', c, s, s');
  }

  /** The heights a double rotation leaves: outer grandchildren alike, inner ones no higher. */
  ghost predicate Split(s: TShape) {
    && s.Node? && s.l.Node? && s.r.Node?
    && Height(s.l.l) == Height(s.r.r)
    && Height(s.l.r) <= Height(s.l.l) && Height(s.r.l) <= Height(s.l.l)
    && (Height(s.l.r) == Height(s.l.l) || Height(s.r.l) == Height(s.l.l))
  }

  lemma {:induction false} InnerLeft(m: Fields, l: TShape, p: TNode, r: TShape)
    requires Bal(m, l) && Height(l) == Height(r) + 2 && l.Node? && m[l.n].bfc == 1
    ensures l.r.Node? && l.r.n in m && Split(Node(Node(l.l, l.n, l.r.l), l.r.n, Node(l.r.r, p, r)))
  {
    HeightNil(l.r);
    DoubleHeights(m, l.l, l.n, l.r.l, l.r.n, l.r.r, r);
  }

  lemma {:induction false} InnerRight(m: Fields, l: TShape, p: TNode, r: TShape)
    requires Bal(m, r) && Height(r) == Height(l) + 2 && r.Node? && m[r.n].bfc == -1
    ensures r.l.Node? && r.l.n in m && Split(Node(Node(l, p, r.l.l), r.l.n, Node(r.l.r, r.n, r.r)))
  {
    HeightNil(r.l);
    DoubleHeightsRight(m, l, r.l.l, r.l.n, r.l.r, r.n, r.r);
  }

  /** Double rotation; the subtree that is lifted is the inner one of the heavier side. */
  method Double(ghost ns: set<TNode>, p: TNode, side: Side, ghost c: TCtx, ghost l: TShape, ghost r: TShape)
    returns (t: TNode, ghost s': TShape)
    requires side != Undef && p in ns
    requires Apart(c, Node(l, p, r)) && Zip(Snap(ns), c, Node(l, p, r))
    requires Bal(Snap(ns), l) && Bal(Snap(ns), r)
    requires if side == Left then Height(l) == Height(r) + 2 && Snap(ns)[l.n].bfc == 1
             else Height(r) == Height(l) + 2 && Snap(ns)[r.n].bfc == -1
    modifies ns`parent, ns`side, ns`left, ns`right, ns`bfc
    ensures Root(s') == t && Rebalanced(old(Snap(ns)), Snap(ns), c, Node(l, p, r), s')
    ensures Split(s') && t.bfc == 0 && SameContent(old(Snap(ns)), Snap(ns))
  {
    HeightNil(l);
    HeightNil(r);
    hide Rebalanced, Linked, CtxLinked, Disj, CtxDisj, Nodes, CtxNodes, Inorder, SameContent, Height, Bal, Split;
    ghost var m, mid := Snap(ns), Snap(ns);
    if side == Left {
      InnerLeft(m, l, p, r);
      ghost var q := l.r;
      DoublePivotsLeft(m, c, l.l, l.n, q.l, q.n, q.r, p, r);
      t, mid := RotateDouble(ns, p, Left, l.n, q.n, Root(q.l), Root(q.r), CtxParent(c));
      DoubleLeftDone(m, mid, Snap(ns), c, l.l, l.n, q.l, q.n, q.r, p, r);
      s' := Node(Node(l.l, l.n, q.l), q.n, Node(q.r, p, r));
    } else {
      InnerRight(m, l, p, r);
      ghost var q := r.l;
      DoublePivotsRight(m, c, l, p, q.l, q.n, q.r, r.n, r.r);
      t, mid := RotateDouble(ns, p, Right, r.n, q.n, Root(q.r), Root(q.l), CtxParent(c));
      DoubleRightDone(m, mid, Snap(ns), c, l, p, q.l, q.n, q.r, r.n, r.r);
      s' := Node(Node(l, p, q.l), q.n, Node(q.r, r.n, r.r));
    }
  }

  /** After a double rotation, children that are not both internal are both leaves. */
  lemma {:induction false} SplitLeaves(s: TShape)
    requires Split(s) && (s.l.l.Nil? || s.l.r.Nil?) && (s.r.l.Nil? || s.r.r.Nil?)
    ensures s.l.l.Nil? && s.l.r.Nil? && s.r.l.Nil? && s.r.r.Nil?
  {
    HeightNil(s.l.l);
    HeightNil(s.l.r);
    HeightNil(s.r.l);
    HeightNil(s.r.r);
  }

  /** Only keys moved. */
  ghost predicate SameTree(m: Fields, m': Fields) {
    && m'.Keys == m.Keys
    && forall n :: n in m ==> m'[n] == m[n].(items := m'[n].items)
  }

  lemma {:induction false} SameTreeSound(m: Fields, m': Fields, c: TCtx, s: TShape)
    requires SameTree(m, m') && Sound(m, c, s)
    ensures Sound(m', c, s)
  {
    LinkedFrame(m, m', s, CtxParent(c), CtxSide(c));
    CtxLinkedFrame(m, m', c, Root(s));
    BalFrame(m, m', s);
  }

  /** `n.PullFromRight` seen from the whole tree. */
  method MoveFromRight(ghost ns: set<TNode>, k: int, g: TNode, y: TNode)
    requires k >= 2 && Windows(ns, k) && g in ns && y in ns && g != y
    requires |g.items| == 1 && y.items != []
    modifies g`minIdx, g`maxIdx, g`items, g.keys, y`minIdx, y`maxIdx, y`items, y.keys
    ensures Windows(ns, k) && SameTree(old(Snap(ns)), Snap(ns))
    ensures g.items + y.items == old(g.items + y.items) && g.items != []
    ensures g.items == old(g.items + y.items[..|y.items| - 1]) && |y.items| == 1
  {
    ghost var others := ns - {g, y};
    assert forall n :: n in others ==> n.Window(k) && n.keys != g.keys && n.keys != y.keys;
    g.PullFromRight(k, y);
    assert forall n :: n in others ==> n.Window(k);
  }

  method MoveFromLeft(ghost ns: set<TNode>, k: int, g: TNode, x: TNode)
    requires k >= 2 && Windows(ns, k) && g in ns && x in ns && g != x
    requires |g.items| == 1 && x.items != []
    modifies g`minIdx, g`maxIdx, g`items, g.keys, x`minIdx, x`maxIdx, x`items, x.keys
    ensures Windows(ns, k) && SameTree(old(Snap(ns)), Snap(ns))
    ensures x.items + g.items == old(x.items + g.items) && g.items != []
    ensures g.items == old(x.items[1..] + g.items) && |x.items| == 1
  {
    ghost var others := ns - {g, x};
    assert forall n :: n in others ==> n.Window(k) && n.keys != g.keys && n.keys != x.keys;
    g.PullFromLeft(k, x);
    assert forall n :: n in others ==> n.Window(k);
  }

  lemma {:induction false} LeafRow(x: TNode)
    ensures Inorder(Node(Nil, x, Nil)) == [x]
  {
    var s := Node(Nil, x, Nil);
    assert Inorder(s.l) == [] && Inorder(s.r) == [];
  }

  lemma {:induction false} FlatThree(m: Fields, x: TNode, g: TNode, y: TNode)
    ensures Flat(m, Inorder(Node(Node(Nil, x, Nil), g, Node(Nil, y, Nil)))) == Items(m, x) + Items(m, g) + Items(m, y)
  {
    LeafRow(x);
    LeafRow(y);
    assert Inorder(Node(Node(Nil, x, Nil), g, Node(Nil, y, Nil))) == [x] + [g] + [y];
    FlatAround(m, [x], g, [y]);
    FlatOne(m, x);
    FlatOne(m, y);
  }

  /** Keys moved between a node and its two leaf children; their order did not change. */
  ghost predicate Moved(m: Fields, m': Fields, s: TShape) {
    && SameTree(m, m') && s.Node? && s.l.Node? && s.r.Node?
    && s == Node(Node(Nil, s.l.n, Nil), s.n, Node(Nil, s.r.n, Nil))
    && s.l.n in m && s.n in m && s.r.n in m
    && (forall n :: n in m && n != s.l.n && n != s.n && n != s.r.n ==> m'[n].items == m[n].items)
    && m'[s.l.n].items + m'[s.n].items + m'[s.r.n].items == m[s.l.n].items + m[s.n].items + m[s.r.n].items
    && Evened(m[s.l.n].items, m[s.r.n].items, m'[s.l.n].items, m'[s.n].items, m'[s.r.n].items)
  }

  /**
   The fuller leaf keeps a single key, the other leaf all of its keys; the middle holds as many as the fuller
   one had.
   */
  ghost predicate Evened(a: seq<int>, b: seq<int>, a': seq<int>, mid: seq<int>, b': seq<int>) {
    if |b| >= |a| then a' == a && |b'| == 1 && |mid| == |b| else b' == b && |a'| == 1 && |mid| == |a|
  }

  /** A node with one key whose children have a free side each. */
  ghost predicate Lone(m: Fields, s: TShape) {
    && s.Node? && s.l.Node? && s.r.Node? && s.n in m
    && |m[s.n].items| == 1 && (s.l.l.Nil? || s.l.r.Nil?) && (s.r.l.Nil? || s.r.r.Nil?)
  }

  lemma {:induction false} MovedDone(m: Fields, m1: Fields, m2: Fields, c: TCtx, s: TShape, s': TShape)
    requires Rebalanced(m, m1, c, s, s') && Moved(m1, m2, s')
    ensures Rebalanced(m, m2, c, s, s')
  {
    var x, g, y := s'.l.n, s'.n, s'.r.n;
    SameTreeSound(m1, m2, c, s');
    FlatThree(m1, x, g, y);
    FlatThree(m2, x, g, y);
    assert Nodes(Node(Nil, x, Nil)) == {x} && Nodes(Node(Nil, y, Nil)) == {y};
  }

  /** The lifted node `g` takes over all keys but one of the fuller of its two leaves. */
  method MoveKeys(ghost ns: set<TNode>, k: int, g: TNode, ghost x: TNode, ghost y: TNode)
    requires k >= 2 && Windows(ns, k) && x in ns && g in ns && y in ns && x != g && g != y && x != y
    requires g.left == x && g.right == y && |g.items| == 1 && x.items != [] && y.items != []
    modifies {x, g, y}`minIdx, {x, g, y}`maxIdx, {x, g, y}`items, x.keys, g.keys, y.keys
    ensures Windows(ns, k) && SameTree(old(Snap(ns)), Snap(ns))
    ensures x.items + g.items + y.items == old(x.items + g.items + y.items)
    ensures x.items != [] && g.items != [] && y.items != []
    ensures Evened(old(x.items), old(y.items), x.items, g.items, y.items)
  {
    ghost var a, b, d := x.items, g.items, y.items;
    assert a + b + d == a + (b + d);
    if g.right.NumKeys() >= g.left.NumKeys() {
      MoveFromRight(ns, k, g, g.right);
      assert x.items + g.items + y.items == x.items + (g.items + y.items);
    } else {
      MoveFromLeft(ns, k, g, g.left);
    }
  }

  lemma {:induction false} OneWindow(ns: set<TNode>, k: int, n: TNode)
    requires Windows(ns, k) && n in ns
    ensures n.Window(k) && n.NumKeys() == |n.items|
  {
  }

  /** After a double rotation: moves keys if the lifted node has only one and its children are leaves. */
  method Refill(ghost ns: set<TNode>, k: int, t: TNode, ghost s': TShape, ghost x: TNode, ghost y: TNode)
    requires k >= 2 && Windows(ns, k) && Filled(Snap(ns)) && Split(s') && s'.n == t && s'.l.n == x && s'.r.n == y
    requires t in ns && x in ns && y in ns && x != t && t != y && x != y
    requires t.left == x && t.right == y && x.left == Root(s'.l.l) && x.right == Root(s'.l.r)
    requires y.left == Root(s'.r.l) && y.right == Root(s'.r.r)
    modifies ns`minIdx, ns`maxIdx, ns`items, set n | n in ns :: n.keys
    ensures Windows(ns, k) && Filled(Snap(ns))
    ensures if Lone(old(Snap(ns)), s') then Moved(old(Snap(ns)), Snap(ns), s') else Snap(ns) == old(Snap(ns))
  {
    hide Windows, Height;
    OneWindow(ns, k, t);
    if t.NumKeys() == 1 && !IsInternal(t.left.left, t.left.right) && !IsInternal(t.right.left, t.right.right) {
      SplitLeaves(s');
      ghost var m := Snap(ns);
      assert m[x].items != [] && m[y].items != [];
      MoveKeys(ns, k, t, x, y);
      assert forall n :: n in m && n != x && n != t && n != y ==> Snap(ns)[n].items == m[n].items;
    }
  }

  lemma {:induction false} SplitLinks(m: Fields, c: TCtx, s: TShape)
    requires Apart(c, s) && Zip(m, c, s) && Split(s)
    ensures s.n in m && s.l.n in m && s.r.n in m && s.l.n != s.n && s.n != s.r.n && s.l.n != s.r.n
    ensures m[s.n].left == s.l.n && m[s.n].right == s.r.n
    ensures m[s.l.n].left == Root(s.l.l) && m[s.l.n].right == Root(s.l.r)
    ensures m[s.r.n].left == Root(s.r.l) && m[s.r.n].right == Root(s.r.r)
  {
    assert Linked(m, s.l, s.n, Left) && Linked(m, s.r, s.n, Right);
    assert s.l.n in Nodes(s.l) && s.r.n in Nodes(s.r);
  }

  lemma {:induction false} SplitRebalanced(m: Fields, m1: Fields, c: TCtx, s: TShape, s': TShape)
    requires Rebalanced(m, m1, c, s, s') && Split(s')
    ensures s'.n in m1 && s'.l.n in m1 && s'.r.n in m1 && s'.l.n != s'.n && s'.n != s'.r.n && s'.l.n != s'.r.n
    ensures m1[s'.n].left == s'.l.n && m1[s'.n].right == s'.r.n
    ensures m1[s'.l.n].left == Root(s'.l.l) && m1[s'.l.n].right == Root(s'.l.r)
    ensures m1[s'.r.n].left == Root(s'.r.l) && m1[s'.r.n].right == Root(s'.r.r)
  {
    SplitLinks(m1, c, s');
  }

  lemma {:induction false} MaybeMoved(m: Fields, m1: Fields, m2: Fields, c: TCtx, s: TShape, s': TShape)
    requires Rebalanced(m, m1, c, s, s') && (m2 == m1 || Moved(m1, m2, s'))
    ensures Rebalanced(m, m2, c, s, s') && s'.n in m1 && s'.n in m2 && m2[s'.n].bfc == m1[s'.n].bfc
  {
    if m2 != m1 {
      MovedDone(m, m1, m2, c, s, s');
    }
  }

  ghost function Heavier(p: TNode): TNode?
    reads p
  {
    if p.bfc < 0 then p.left else p.right
  }

  /** A subtree whose sides differ by two levels. */
  ghost predicate Tilted(m: Fields, c: TCtx, l: TShape, p: TNode, r: TShape) {
    && Apart(c, Node(l, p, r)) && Zip(m, c, Node(l, p, r)) && Bal(m, l) && Bal(m, r)
    && p in m && m[p].bfc == Height(r) - Height(l)
    && (m[p].bfc == 2 || m[p].bfc == -2)
  }

  lemma {:induction false} StaysFilled(m: Fields, m': Fields)
    requires Filled(m) && SameContent(m, m')
    ensures Filled(m')
  {
  }

  /** Double rotation with the key move that may follow it. */
  method DoubleRefill(ghost ns: set<TNode>, k: int, p: TNode, side: Side, ghost c: TCtx, ghost l: TShape,
        ghost r: TShape)
    returns (t: TNode, ghost s': TShape)
    requires k >= 2 && Windows(ns, k) && Filled(Snap(ns)) && Tilted(Snap(ns), c, l, p, r)
    requires side == (if p.bfc < 0 then Left else Right)
    requires if side == Left then Snap(ns)[l.n].bfc == 1 else Snap(ns)[r.n].bfc == -1
    modifies ns`parent, ns`side, ns`left, ns`right, ns`bfc
    modifies ns`minIdx, ns`maxIdx, ns`items, set n | n in ns :: n.keys
    ensures Windows(ns, k) && Filled(Snap(ns))
    ensures Root(s') == t && Rebalanced(old(Snap(ns)), Snap(ns), c, Node(l, p, r), s')
    ensures t.bfc == 0
  {
    hide Windows, Filled, Rebalanced, SameContent, Moved, Linked, CtxLinked, Bal, Disj, CtxDisj, Nodes, CtxNodes;
    hide Height;
    ghost var m := Snap(ns);
    t, s' := Double(ns, p, side, c, l, r);
    ghost var m1 := Snap(ns);
    SplitRebalanced(m, m1, c, Node(l, p, r), s');
    StaysFilled(m, m1);
    Refill(ns, k, t, s', s'.l.n, s'.r.n);
    MaybeMoved(m, m1, Snap(ns), c, Node(l, p, r), s');
  }

  method Rebalance(ghost ns: set<TNode>, k: int, p: TNode, ghost c: TCtx, ghost l: TShape, ghost r: TShape)
    returns (t: TNode, ghost s': TShape)
    requires k >= 2 && Windows(ns, k) && Filled(Snap(ns)) && Tilted(Snap(ns), c, l, p, r)
    modifies ns`parent, ns`side, ns`left, ns`right, ns`bfc
    modifies ns`minIdx, ns`maxIdx, ns`items, set n | n in ns :: n.keys
    ensures Windows(ns, k) && Filled(Snap(ns))
    ensures Root(s') == t && Rebalanced(old(Snap(ns)), Snap(ns), c, Node(l, p, r), s')
    ensures old(Heavier(p)) != null && (old(Heavier(p).bfc) != 0 ==> t.bfc == 0)
  {
    hide Windows, Filled, Rebalanced, SameContent, Nodes, CtxNodes, Disj, CtxDisj, CtxLinked;
    ghost var m := Snap(ns);
    var side := if p.bfc < 0 then Left else Right;
    var child := p.Child(side);
    var sum := p.bfc + child.bfc;
    if sum >= 2 || -sum >= 2 {
      t, s' := Single(ns, p, side, c, l, r);
      StaysFilled(m, Snap(ns));
    } else {
      t, s' := DoubleRefill(ns, k, p, side, c, l, r);
    }
  }
}
