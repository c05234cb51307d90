/**
 Why the rotations restore the balance: a subtree whose sides differ by two
 levels becomes balanced, with every stored factor right (kernel/ds/ttree.c).
 */
module TBalance {
  import opened Shapes
  import opened TNodes
  import opened TLinks
  import opened TRotate

  lemma {:induction false} HeightNil(s: TShape)
    ensures Height(s) == 0 <==> s.Nil?
  {
  }

  /** Links, distinctness and balance of a subtree in its surroundings. */
  ghost predicate Sound(m: Fields, c: TCtx, s: TShape) {
    Apart(c, s) && Zip(m, c, s) && Bal(m, s)
  }

  /** Keys and successors are not touched. */
  ghost predicate SameContent(m: Fields, m': Fields) {
    && m'.Keys == m.Keys
    && forall n :: n in m ==> m'[n].items == m[n].items && m'[n].successor == m[n].successor
  }

  lemma {:induction false} RotatesContent(m: Fields, m': Fields, p: TNode, side: Side, s: TNode,
                                          inner: TNode?, par: TNode?, bp: int, bs: int)
    requires side != Undef && Rotates(m, m', p, side, s, inner, par, bp, bs)
    requires p != s && p != inner && s != inner && par != p && par != s && (par != null ==> par != inner)
    ensures SameContent(m, m')
    ensures forall n :: n in m && n != p && n != s ==> m'[n].bfc == m[n].bfc
  {
  }

  /** A rotation leaves the balance of the three subtrees and all content alone. */
  lemma {:induction false} RotatedParts(m: Fields, m': Fields, c: TCtx, side: Side,
                                        a: TShape, s: TNode, b: TShape, p: TNode, d: TShape, bp: int, bs: int)
    requires side != Undef && Rotates(m, m', p, side, s, Root(b), CtxParent(c), bp, bs)
    requires Five(c, a, s, b, p, d) || Five(c, d, p, b, s, a)
    requires Bal(m, a) && Bal(m, b) && Bal(m, d)
    ensures SameContent(m, m')
    ensures Bal(m', a) && Bal(m', b) && Bal(m', d)
  {
    assert b.Node? ==> b.n in Nodes(b);
    assert !c.Top? ==> c.n in CtxNodes(c);
    RotatesContent(m, m', p, side, s, Root(b), CtxParent(c), bp, bs);
    BalFrame(m, m', a);
    BalFrame(m, m', b);
    BalFrame(m, m', d);
  }

  /** The factors a right rotation stores are the right ones. */
  lemma {:induction false} SingleLeftBal(m: Fields, a: TShape, s: TNode, b: TShape, p: TNode, d: TShape, sb: int)
    requires s in m && p in m && Bal(m, a) && Bal(m, b) && Bal(m, d)
    requires sb == Height(b) - Height(a) && -1 <= sb <= 0 && Height(a) == Height(d) + 1
    requires m[p].left == Root(b) && m[p].right == Root(d)
    requires m[p].bfc == LoweredBfc(m[p], Left, sb) && m[s].bfc == sb + 1
    ensures Bal(m, Node(a, s, Node(b, p, d)))
    ensures Height(Node(a, s, Node(b, p, d))) == Height(d) + (if sb == -1 then 2 else 3)
  {
    HeightNil(b);
    HeightNil(d);
    var y := Node(b, p, d);
    assert Height(y) == Over(Height(b), Height(d));
    assert Bal(m, y);
  }

  lemma {:induction false} SingleLeft(m: Fields, m': Fields, c: TCtx, a: TShape, s: TNode, b: TShape, p: TNode,
        d: TShape)
    requires Apart(c, Node(Node(a, s, b), p, d)) && Zip(m, c, Node(Node(a, s, b), p, d))
    requires Bal(m, Node(a, s, b)) && Bal(m, d)
    requires Height(Node(a, s, b)) == Height(d) + 2 && m[s].bfc <= 0 && p in m
    requires Rotates(m, m', p, Left, s, Root(b), CtxParent(c),
                     LoweredBfc(WithChild(m[p], Left, Root(b)), Left, m[s].bfc), m[s].bfc + 1)
    ensures Sound(m', c, Node(a, s, Node(b, p, d))) && SameContent(m, m')
    ensures Height(Node(a, s, Node(b, p, d))) == Height(d) + (if m'[s].bfc == 0 then 2 else 3)
  {
    var bp, bs := LoweredBfc(WithChild(m[p], Left, Root(b)), Left, m[s].bfc), m[s].bfc + 1;
    FiveApart(c, a, s, b, p, d);
    RotateLeftChild(m, m', c, a, s, b, p, d, bp, bs);
    RotatedParts(m, m', c, Left, a, s, b, p, d, bp, bs);
    SingleLeftBal(m', a, s, b, p, d, m[s].bfc);
  }

  lemma {:induction false} SingleRightBal(m: Fields, a: TShape, p: TNode, b: TShape, s: TNode, d: TShape, sb: int)
    requires s in m && p in m && Bal(m, a) && Bal(m, b) && Bal(m, d)
    requires sb == Height(d) - Height(b) && 0 <= sb <= 1 && Height(d) == Height(a) + 1
    requires m[p].left == Root(a) && m[p].right == Root(b)
    requires m[p].bfc == LoweredBfc(m[p], Right, sb) && m[s].bfc == sb - 1
    ensures Bal(m, Node(Node(a, p, b), s, d))
    ensures Height(Node(Node(a, p, b), s, d)) == Height(a) + (if sb == 1 then 2 else 3)
  {
    HeightNil(a);
    HeightNil(b);
    var y := Node(a, p, b);
    assert Height(y) == Over(Height(a), Height(b));
    assert Bal(m, y);
  }

  lemma {:induction false} SingleRight(m: Fields, m': Fields, c: TCtx, a: TShape, p: TNode, b: TShape, s: TNode,
        d: TShape)
    requires Apart(c, Node(a, p, Node(b, s, d))) && Zip(m, c, Node(a, p, Node(b, s, d)))
    requires Bal(m, a) && Bal(m, Node(b, s, d))
    requires Height(Node(b, s, d)) == Height(a) + 2 && m[s].bfc >= 0 && p in m
    requires Rotates(m, m', p, Right, s, Root(b), CtxParent(c),
                     LoweredBfc(WithChild(m[p], Right, Root(b)), Right, m[s].bfc), m[s].bfc - 1)
    ensures Sound(m', c, Node(Node(a, p, b), s, d)) && SameContent(m, m')
    ensures Height(Node(Node(a, p, b), s, d)) == Height(a) + (if m'[s].bfc == 0 then 2 else 3)
  {
    var bp, bs := LoweredBfc(WithChild(m[p], Right, Root(b)), Right, m[s].bfc), m[s].bfc - 1;
    Reassociate(a, p, b, s, d);
    FiveApart(c, a, p, b, s, d);
    RotateRightChild(m, m', c, a, p, b, s, d, bp, bs);
    RotatedParts(m, m', c, Right, d, s, b, p, a, bp, bs);
    SingleRightBal(m', a, p, b, s, d, m[s].bfc);
  }

  /** The factors a double rotation stores are the right ones. */
  lemma {:induction false} DoubleBal(m: Fields, a: TShape, x: TNode, b: TShape, g: TNode, d: TShape, y: TNode,
        e: TShape, gb: int)
    requires x in m && y in m && g in m && Bal(m, a) && Bal(m, b) && Bal(m, d) && Bal(m, e)
    requires Height(a) == Height(e) && gb == Height(d) - Height(b) && -1 <= gb <= 1
    requires Over(Height(b), Height(d)) == Height(a) + 1
    requires m[x].left == Root(a) && m[x].right == Root(b) && m[x].bfc == SplitBfc(m[x], Left, gb)
    requires m[y].left == Root(d) && m[y].right == Root(e) && m[y].bfc == SplitBfc(m[y], Right, gb)
    requires m[g].bfc == 0
    ensures Bal(m, Node(Node(a, x, b), g, Node(d, y, e)))
    ensures Height(Node(Node(a, x, b), g, Node(d, y, e))) == Height(a) + 2
  {
    HeightNil(a);
    HeightNil(b);
    HeightNil(d);
    HeightNil(e);
    var l, r := Node(a, x, b), Node(d, y, e);
    assert Height(l) == Over(Height(a), Height(b)) && Height(r) == Over(Height(d), Height(e));
    assert Bal(m, l) && Bal(m, r);
  }

  /** The three pivots are no nodes of the four subtrees or the context. */
  ghost predicate Trio(c: TCtx, a: TShape, x: TNode, b: TShape, g: TNode, d: TShape, y: TNode, e: TShape) {
    && x != g && g != y && x != y
    && {x, g, y} !! Nodes(a) && {x, g, y} !! Nodes(b) && {x, g, y} !! Nodes(d) && {x, g, y} !! Nodes(e)
    && {x, g, y} !! CtxNodes(c)
    && CtxNodes(c) !! Nodes(b) && CtxNodes(c) !! Nodes(d)
  }

  lemma {:induction false} TrioApart(c: TCtx, a: TShape, x: TNode, b: TShape, g: TNode, d: TShape, y: TNode, e: TShape)
    requires Apart(c, Node(Node(a, x, b), g, Node(d, y, e)))
    ensures Trio(c, a, x, b, g, d, y, e)
  {
    var l, r := Node(a, x, b), Node(d, y, e);
    assert Nodes(l) == Nodes(a) + {x} + Nodes(b) && Nodes(r) == Nodes(d) + {y} + Nodes(e);
    assert Disj(l) && Disj(r);
  }

  lemma {:induction false} TrioFrame(m: Fields, m': Fields, c: TCtx, a: TShape, x: TNode, b: TShape,
                                     g: TNode, d: TShape, y: TNode, e: TShape)
    requires Trio(c, a, x, b, g, d, y, e) && m'.Keys == m.Keys
    requires forall n :: n in m && n != x && n != g && n != y ==> m'[n].bfc == m[n].bfc
    requires Bal(m, a) && Bal(m, b) && Bal(m, d) && Bal(m, e)
    ensures Bal(m', a) && Bal(m', b) && Bal(m', d) && Bal(m', e)
  {
    BalFrame(m, m', a);
    BalFrame(m, m', b);
    BalFrame(m, m', d);
    BalFrame(m, m', e);
  }

  /** Two rotations in a row change no content, and only the factors of the three pivots. */
  lemma {:induction false} DoubleContent(m: Fields, mid: Fields, m': Fields, side: Side, s: TNode, g: TNode,
        near: TNode?,
                                         p: TNode, far: TNode?, par: TNode?, bs: int, bg: int, bp: int)
    requires side != Undef
    requires Rotates(m, mid, s, Opposite(side), g, near, p, bs, bg)
    requires Rotates(mid, m', p, side, g, far, par, bp, 0)
    requires s != g && g != p && s != p && near != s && near != g && near != p && far != s && far != g && far != p
    requires par != s && par != g && par != p && (par != null ==> par != far)
    ensures SameContent(m, m') && m'.Keys == m.Keys && s in m && p in m && g in m
    ensures m'[s].bfc == bs && m'[p].bfc == bp && m'[g].bfc == 0
    ensures forall n :: n in m && n != s && n != g && n != p ==> m'[n].bfc == m[n].bfc
  {
    RotatesContent(m, mid, s, Opposite(side), g, near, p, bs, bg);
    RotatesContent(mid, m', p, side, g, far, par, bp, 0);
  }

  /** Balance after a double rotation whose pivots are `x`, `g`, `y` from left to right. */
  lemma {:induction false} DoubleFactors(m: Fields, mid: Fields, m': Fields, c: TCtx, side: Side, a: TShape, x: TNode,
        b: TShape,
                                         g: TNode, d: TShape, y: TNode, e: TShape,
                                         s: TNode, near: TNode?, p: TNode, far: TNode?, bs: int, bp: int)
    requires Trio(c, a, x, b, g, d, y, e) && side != Undef
    requires if side == Left then s == x && p == y && near == Root(b) && far == Root(d)
             else s == y && p == x && near == Root(d) && far == Root(b)
    requires g in m && Rotates(m, mid, s, Opposite(side), g, near, p, bs, m[g].bfc)
    requires Rotates(mid, m', p, side, g, far, CtxParent(c), bp, 0)
    requires Bal(m, a) && Bal(m, b) && Bal(m, d) && Bal(m, e)
    requires Height(a) == Height(e) && m[g].bfc == Height(d) - Height(b) && -1 <= m[g].bfc <= 1
    requires Over(Height(b), Height(d)) == Height(a) + 1
    requires x in m' && y in m' && m'[x].left == Root(a) && m'[x].right == Root(b) && m'[y].left == Root(d)
    requires m'[y].right == Root(e)
    requires bs == SplitBfc(m'[s], side, m[g].bfc) && bp == SplitBfc(m'[p], Opposite(side), m[g].bfc)
    ensures Bal(m', Node(Node(a, x, b), g, Node(d, y, e))) && SameContent(m, m') && g in m' && m'[g].bfc == 0
    ensures Height(Node(Node(a, x, b), g, Node(d, y, e))) == Height(a) + 2
  {
    TrioRoots(c, a, x, b, g, d, y, e);
    DoubleContent(m, mid, m', side, s, g, near, p, far, CtxParent(c), bs, m[g].bfc, bp);
    TrioFrame(m, m', c, a, x, b, g, d, y, e);
    DoubleBal(m', a, x, b, g, d, y, e, m[g].bfc);
  }

  lemma {:induction false} DoubleLeftLinks(m: Fields, mid: Fields, m': Fields, c: TCtx, a: TShape, x: TNode, b: TShape,
                                           g: TNode, d: TShape, p: TNode, e: TShape, bx: int, bg: int, bp: int)
    requires Apart(c, Node(Node(a, x, Node(b, g, d)), p, e)) && Zip(m, c, Node(Node(a, x, Node(b, g, d)), p, e))
    requires Rotates(m, mid, x, Right, g, Root(b), p, bx, bg)
    requires Rotates(mid, m', p, Left, g, Root(d), CtxParent(c), bp, 0)
    ensures Zip(m', c, Node(Node(a, x, b), g, Node(d, p, e))) && Apart(c, Node(Node(a, x, b), g, Node(d, p, e)))
    ensures x in m && p in m && m[x].left == Root(a) && m[p].right == Root(e)
  {
    OuterLeft(m, c, a, x, Node(b, g, d), p, e);
    ApartDown(c, Node(a, x, Node(b, g, d)), p, e);
    ZipDown(m, c, Node(a, x, Node(b, g, d)), p, e);
    RotateRightChild(m, mid, InLeft(c, p, e), a, x, b, g, d, bx, bg);
    ApartDown(c, Node(Node(a, x, b), g, d), p, e);
    ZipDown(mid, c, Node(Node(a, x, b), g, d), p, e);
    RotateLeftChild(mid, m', c, Node(a, x, b), g, d, p, e, bp, 0);
  }

  lemma {:induction false} DoubleRightLinks(m: Fields, mid: Fields, m': Fields, c: TCtx, a: TShape, p: TNode, b: TShape,
                                            g: TNode, d: TShape, x: TNode, e: TShape, bx: int, bg: int, bp: int)
    requires Apart(c, Node(a, p, Node(Node(b, g, d), x, e))) && Zip(m, c, Node(a, p, Node(Node(b, g, d), x, e)))
    requires Rotates(m, mid, x, Left, g, Root(d), p, bx, bg)
    requires Rotates(mid, m', p, Right, g, Root(b), CtxParent(c), bp, 0)
    ensures Zip(m', c, Node(Node(a, p, b), g, Node(d, x, e))) && Apart(c, Node(Node(a, p, b), g, Node(d, x, e)))
    ensures x in m && p in m && m[p].left == Root(a) && m[x].right == Root(e)
  {
    OuterRight(m, c, a, p, Node(b, g, d), x, e);
    ApartDown(c, a, p, Node(Node(b, g, d), x, e));
    ZipDown(m, c, a, p, Node(Node(b, g, d), x, e));
    RotateLeftChild(m, mid, InRight(a, p, c), b, g, d, x, e, bx, bg);
    ApartDown(c, a, p, Node(b, g, Node(d, x, e)));
    ZipDown(mid, c, a, p, Node(b, g, Node(d, x, e)));
    RotateRightChild(mid, m', c, a, p, b, g, Node(d, x, e), bp, 0);
  }

  lemma {:induction false} SplitFields(m: Fields, c: TCtx, a: TShape, x: TNode, b: TShape, g: TNode, d: TShape,
        y: TNode, e: TShape)
    requires Zip(m, c, Node(Node(a, x, b), g, Node(d, y, e)))
    ensures x in m && y in m && g in m
    ensures m[x].left == Root(a) && m[x].right == Root(b) && m[y].left == Root(d) && m[y].right == Root(e)
  {
    assert Linked(m, Node(a, x, b), g, Left) && Linked(m, Node(d, y, e), g, Right);
  }

  lemma {:induction false} OuterLeft(m: Fields, c: TCtx, a: TShape, x: TNode, q: TShape, p: TNode, e: TShape)
    requires Zip(m, c, Node(Node(a, x, q), p, e))
    ensures x in m && p in m && m[x].left == Root(a) && m[p].right == Root(e)
  {
    assert Linked(m, Node(a, x, q), p, Left);
  }

  lemma {:induction false} OuterRight(m: Fields, c: TCtx, a: TShape, p: TNode, q: TShape, x: TNode, e: TShape)
    requires Zip(m, c, Node(a, p, Node(q, x, e)))
    ensures x in m && p in m && m[p].left == Root(a) && m[x].right == Root(e)
  {
    assert Linked(m, Node(q, x, e), p, Right);
  }

  /** The pivots of a double rotation differ from the nodes around them. */
  lemma {:induction false} TrioRoots(c: TCtx, a: TShape, x: TNode, b: TShape, g: TNode, d: TShape, y: TNode, e: TShape)
    requires Trio(c, a, x, b, g, d, y, e)
    ensures x != g && g != y && x != y
    ensures Root(b) != x && Root(b) != g && Root(b) != y && Root(d) != x && Root(d) != g && Root(d) != y
    ensures CtxParent(c) != x && CtxParent(c) != g && CtxParent(c) != y
    ensures !c.Top? ==> CtxParent(c) != Root(b) && CtxParent(c) != Root(d)
  {
    assert b.Node? ==> b.n in Nodes(b);
    assert d.Node? ==> d.n in Nodes(d);
    assert !c.Top? ==> c.n in CtxNodes(c);
  }

  /** What links and distinctness after a double rotation say about the pivots. */
  lemma {:induction false} SplitFacts(m: Fields, c: TCtx, a: TShape, x: TNode, b: TShape, g: TNode, d: TShape,
        y: TNode, e: TShape)
    requires Apart(c, Node(Node(a, x, b), g, Node(d, y, e))) && Zip(m, c, Node(Node(a, x, b), g, Node(d, y, e)))
    ensures Trio(c, a, x, b, g, d, y, e) && x in m && y in m && g in m
    ensures m[x].left == Root(a) && m[x].right == Root(b) && m[y].left == Root(d) && m[y].right == Root(e)
  {
    TrioApart(c, a, x, b, g, d, y, e);
    SplitFields(m, c, a, x, b, g, d, y, e);
  }

  /** What the heights before a double rotation say about the four subtrees. */
  lemma {:induction false} DoubleHeights(m: Fields, a: TShape, x: TNode, b: TShape, g: TNode, d: TShape, e: TShape)
    requires Bal(m, Node(a, x, Node(b, g, d))) && Height(Node(a, x, Node(b, g, d))) == Height(e) + 2 && m[x].bfc == 1
    ensures g in m && Bal(m, a) && Bal(m, b) && Bal(m, d)
    ensures Height(a) == Height(e) && m[g].bfc == Height(d) - Height(b) && -1 <= m[g].bfc <= 1
    ensures Over(Height(b), Height(d)) == Height(a) + 1
  {
    assert Bal(m, Node(b, g, d)) && Height(Node(b, g, d)) == Over(Height(b), Height(d));
  }

  lemma {:induction false} DoubleHeightsRight(m: Fields, a: TShape, b: TShape, g: TNode, d: TShape, x: TNode, e: TShape)
    requires Bal(m, Node(Node(b, g, d), x, e)) && Height(Node(Node(b, g, d), x, e)) == Height(a) + 2 && m[x].bfc == -1
    ensures g in m && Bal(m, e) && Bal(m, b) && Bal(m, d)
    ensures Height(a) == Height(e) && m[g].bfc == Height(d) - Height(b) && -1 <= m[g].bfc <= 1
    ensures Over(Height(b), Height(d)) == Height(a) + 1
  {
    assert Bal(m, Node(b, g, d)) && Height(Node(b, g, d)) == Over(Height(b), Height(d));
  }

  lemma {:induction false} DoubleLeft(m: Fields, mid: Fields, m': Fields, c: TCtx, a: TShape, x: TNode, b: TShape,
                                      g: TNode, d: TShape, p: TNode, e: TShape)
    requires Apart(c, Node(Node(a, x, Node(b, g, d)), p, e)) && Zip(m, c, Node(Node(a, x, Node(b, g, d)), p, e))
    requires Bal(m, Node(a, x, Node(b, g, d))) && Bal(m, e)
    requires Height(Node(a, x, Node(b, g, d))) == Height(e) + 2 && m[x].bfc == 1
    requires p in m && g in m
    requires Rotates(m, mid, x, Right, g, Root(b), p,
      SplitBfc(WithChild(m[x], Right, Root(b)), Left, m[g].bfc), m[g].bfc)
    requires Rotates(mid, m', p, Left, g, Root(d), CtxParent(c),
      SplitBfc(WithChild(m[p], Left, Root(d)), Right, m[g].bfc), 0)
    ensures Sound(m', c, Node(Node(a, x, b), g, Node(d, p, e))) && SameContent(m, m')
    ensures Height(Node(Node(a, x, b), g, Node(d, p, e))) == Height(e) + 2 && m'[g].bfc == 0
  {
    var bx := SplitBfc(WithChild(m[x], Right, Root(b)), Left, m[g].bfc);
    var bp := SplitBfc(WithChild(m[p], Left, Root(d)), Right, m[g].bfc);
    hide Linked, CtxLinked, Disj, CtxDisj, Nodes, CtxNodes, Bal, Height, Trio, SameContent, Rotates;
    DoubleHeights(m, a, x, b, g, d, e);
    DoubleLeftLinks(m, mid, m', c, a, x, b, g, d, p, e, bx, m[g].bfc, bp);
    SplitFacts(m', c, a, x, b, g, d, p, e);
    DoubleFactors(m, mid, m', c, Left, a, x, b, g, d, p, e, x, Root(b), p, Root(d), bx, bp);
  }

  lemma {:induction false} DoubleRight(m: Fields, mid: Fields, m': Fields, c: TCtx, a: TShape, p: TNode, b: TShape,
                                       g: TNode, d: TShape, x: TNode, e: TShape)
    requires Apart(c, Node(a, p, Node(Node(b, g, d), x, e))) && Zip(m, c, Node(a, p, Node(Node(b, g, d), x, e)))
    requires Bal(m, a) && Bal(m, Node(Node(b, g, d), x, e))
    requires Height(Node(Node(b, g, d), x, e)) == Height(a) + 2 && m[x].bfc == -1
    requires p in m && g in m
    requires Rotates(m, mid, x, Left, g, Root(d), p,
      SplitBfc(WithChild(m[x], Left, Root(d)), Right, m[g].bfc), m[g].bfc)
    requires Rotates(mid, m', p, Right, g, Root(b), CtxParent(c),
      SplitBfc(WithChild(m[p], Right, Root(b)), Left, m[g].bfc), 0)
    ensures Sound(m', c, Node(Node(a, p, b), g, Node(d, x, e))) && SameContent(m, m')
    ensures Height(Node(Node(a, p, b), g, Node(d, x, e))) == Height(a) + 2 && m'[g].bfc == 0
  {
    var bx := SplitBfc(WithChild(m[x], Left, Root(d)), Right, m[g].bfc);
    var bp := SplitBfc(WithChild(m[p], Right, Root(b)), Left, m[g].bfc);
    hide Linked, CtxLinked, Disj, CtxDisj, Nodes, CtxNodes, Bal, Height, Trio, SameContent, Rotates;
    DoubleHeightsRight(m, a, b, g, d, x, e);
    DoubleRightLinks(m, mid, m', c, a, p, b, g, d, x, e, bx, m[g].bfc, bp);
    SplitFacts(m', c, a, p, b, g, d, x, e);
    DoubleFactors(m, mid, m', c, Right, a, p, b, g, d, x, e, x, Root(d), p, Root(b), bx, bp);
  }
}
