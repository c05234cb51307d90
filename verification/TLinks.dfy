/**
 The fields of T*-tree nodes as a value, the shape they spell out, and what a
 rotation does to it (kernel/ds/ttree.c).
 */
module TLinks {
  import opened Shapes
  import opened TNodes

  type TShape = Shape<TNode>
  type TCtx = Ctx<TNode>

  ghost function Root(s: TShape): TNode? { if s.Nil? then null else s.n }

  /** Child pointers, parent pointers and side marks of the subtree agree with its shape. */
  ghost predicate Linked(m: Fields, s: TShape, par: TNode?, sd: Side) {
    s.Node? ==>
      && s.n in m
      && m[s.n].parent == par && m[s.n].side == sd
      && m[s.n].left == Root(s.l) && m[s.n].right == Root(s.r)
      && Linked(m, s.l, s.n, Left) && Linked(m, s.r, s.n, Right)
  }

  ghost function CtxParent(c: TCtx): TNode? { if c.Top? then null else c.n }

  ghost function CtxSide(c: TCtx): Side {
    if c.Top? then Undef else if c.InLeft? then Left else Right
  }

  /** The same for what surrounds a subtree whose root is `child`. */
  ghost predicate CtxLinked(m: Fields, c: TCtx, child: TNode?) {
    match c
    case Top => true
    case InLeft(up, n, r) =>
      && n in m
      && m[n].left == child && m[n].right == Root(r) && Linked(m, r, n, Right)
      && m[n].parent == CtxParent(up) && m[n].side == CtxSide(up) && CtxLinked(m, up, n)
    case InRight(l, n, up) =>
      && n in m
      && m[n].right == child && m[n].left == Root(l) && Linked(m, l, n, Left)
      && m[n].parent == CtxParent(up) && m[n].side == CtxSide(up) && CtxLinked(m, up, n)
  }

  ghost predicate Zip(m: Fields, c: TCtx, s: TShape) {
    CtxLinked(m, c, Root(s)) && Linked(m, s, CtxParent(c), CtxSide(c))
  }

  ghost predicate Apart(c: TCtx, s: TShape) {
    CtxDisj(c) && Disj(s) && Nodes(s) !! CtxNodes(c)
  }

  lemma {:induction false} PlugLinked(m: Fields, c: TCtx, s: TShape)
    ensures Linked(m, Plug(c, s), null, Undef) <==> Zip(m, c, s)
    decreases c
  {
    match c
    case Top =>
    case InLeft(up, n, r) =>
      PlugLinked(m, up, Node(s, n, r));
    case InRight(l, n, up) =>
      PlugLinked(m, up, Node(l, n, s));
  }

  /** Moving the focus one level down or up. */
  lemma {:induction false} ApartDown(c: TCtx, l: TShape, n: TNode, r: TShape)
    ensures Apart(c, Node(l, n, r)) <==> Apart(InLeft(c, n, r), l)
    ensures Apart(c, Node(l, n, r)) <==> Apart(InRight(l, n, c), r)
  {
  }

  lemma {:induction false} ZipDown(m: Fields, c: TCtx, l: TShape, n: TNode, r: TShape)
    ensures Zip(m, c, Node(l, n, r)) <==> Zip(m, InLeft(c, n, r), l)
    ensures Zip(m, c, Node(l, n, r)) <==> Zip(m, InRight(l, n, c), r)
  {
  }

  /** Every stored balance factor is right height minus left height and lies in {-1, 0, 1}. */
  ghost predicate Bal(m: Fields, s: TShape) {
    s.Node? ==>
      && s.n in m
      && m[s.n].bfc == Height(s.r) - Height(s.l) && -1 <= m[s.n].bfc <= 1
      && Bal(m, s.l) && Bal(m, s.r)
  }

  ghost function Over(h: int, k: int): int { 1 + if h > k then h else k }

  /** The same for what surrounds a subtree of height `h`. */
  ghost predicate CtxBal(m: Fields, c: TCtx, h: int) {
    match c
    case Top => true
    case InLeft(up, n, r) =>
      && n in m
      && m[n].bfc == Height(r) - h && -1 <= m[n].bfc <= 1 && Bal(m, r)
      && CtxBal(m, up, Over(h, Height(r)))
    case InRight(l, n, up) =>
      && n in m
      && m[n].bfc == h - Height(l) && -1 <= m[n].bfc <= 1 && Bal(m, l)
      && CtxBal(m, up, Over(Height(l), h))
  }

  lemma {:induction false} PlugBal(m: Fields, c: TCtx, s: TShape)
    ensures Bal(m, Plug(c, s)) <==> CtxBal(m, c, Height(s)) && Bal(m, s)
    decreases c
  {
    match c
    case Top =>
    case InLeft(up, n, r) =>
      PlugBal(m, up, Node(s, n, r));
      assert Height(Node(s, n, r)) == Over(Height(s), Height(r));
    case InRight(l, n, up) =>
      PlugBal(m, up, Node(l, n, s));
      assert Height(Node(l, n, s)) == Over(Height(l), Height(s));
  }

  ghost predicate SameLinks(m: Fields, m': Fields, n: TNode) {
    n in m ==>
      && n in m'
      && m'[n].parent == m[n].parent && m'[n].side == m[n].side
      && m'[n].left == m[n].left && m'[n].right == m[n].right
  }

  lemma {:induction false} LinkedFrame(m: Fields, m': Fields, s: TShape, par: TNode?, sd: Side)
    requires Linked(m, s, par, sd)
    requires forall n :: n in Nodes(s) ==> SameLinks(m, m', n)
    ensures Linked(m', s, par, sd)
  {
    if s.Node? {
      assert s.n in Nodes(s);
      LinkedFrame(m, m', s.l, s.n, Left);
      LinkedFrame(m, m', s.r, s.n, Right);
    }
  }

  lemma {:induction false} CtxLinkedFrame(m: Fields, m': Fields, c: TCtx, child: TNode?)
    requires CtxLinked(m, c, child)
    requires forall n :: n in CtxNodes(c) ==> SameLinks(m, m', n)
    ensures CtxLinked(m', c, child)
  {
    match c
    case Top =>
    case InLeft(up, n, r) =>
      assert n in CtxNodes(c);
      LinkedFrame(m, m', r, n, Right);
      CtxLinkedFrame(m, m', up, n);
    case InRight(l, n, up) =>
      assert n in CtxNodes(c);
      LinkedFrame(m, m', l, n, Left);
      CtxLinkedFrame(m, m', up, n);
  }

  /** A subtree none of whose links changed, but for the parent and side of its root. */
  lemma {:induction false} Rehung(m: Fields, m': Fields, s: TShape, par: TNode?, sd: Side, par': TNode?, sd': Side)
    requires Disj(s) && Linked(m, s, par, sd)
    requires s.Node? ==> s.n in m' && m'[s.n].parent == par' && m'[s.n].side == sd'
    requires s.Node? ==> m'[s.n].left == m[s.n].left && m'[s.n].right == m[s.n].right
    requires forall n :: n in Nodes(s) && n != s.n ==> SameLinks(m, m', n)
    ensures Linked(m', s, par', sd')
  {
    if s.Node? {
      Parts(s);
      LinkedFrame(m, m', s.l, s.n, Left);
      LinkedFrame(m, m', s.r, s.n, Right);
    }
  }

  /** A context none of whose links changed, but for the child pointer at the hole. */
  lemma {:induction false} Refilled(m: Fields, m': Fields, c: TCtx, child: TNode?, child': TNode?)
    requires CtxDisj(c) && CtxLinked(m, c, child)
    requires forall n :: n in CtxNodes(c) && n != CtxParent(c) ==> SameLinks(m, m', n)
    requires !c.Top? ==> c.n in m' && m'[c.n].parent == m[c.n].parent && m'[c.n].side == m[c.n].side
    requires c.InLeft? ==> m'[c.n].left == child' && m'[c.n].right == m[c.n].right
    requires c.InRight? ==> m'[c.n].right == child' && m'[c.n].left == m[c.n].left
    ensures CtxLinked(m', c, child')
  {
    match c
    case Top =>
    case InLeft(up, n, r) =>
      LinkedFrame(m, m', r, n, Right);
      CtxLinkedFrame(m, m', up, n);
    case InRight(l, n, up) =>
      LinkedFrame(m, m', l, n, Left);
      CtxLinkedFrame(m, m', up, n);
  }

  /** Balance only looks at the balance factors. */
  lemma {:induction false} BalFrame(m: Fields, m': Fields, s: TShape)
    requires Bal(m, s)
    requires forall n :: n in Nodes(s) && n in m ==> n in m' && m'[n].bfc == m[n].bfc
    ensures Bal(m', s)
  {
    if s.Node? {
      BalFrame(m, m', s.l);
      BalFrame(m, m', s.r);
    }
  }

  lemma {:induction false} CtxBalFrame(m: Fields, m': Fields, c: TCtx, h: int)
    requires CtxBal(m, c, h)
    requires forall n :: n in CtxNodes(c) && n in m ==> n in m' && m'[n].bfc == m[n].bfc
    ensures CtxBal(m', c, h)
  {
    match c
    case Top =>
    case InLeft(up, n, r) =>
      BalFrame(m, m', r);
      CtxBalFrame(m, m', up, Over(h, Height(r)));
    case InRight(l, n, up) =>
      BalFrame(m, m', l);
      CtxBalFrame(m, m', up, Over(Height(l), h));
  }

  function Child(r: Rec, side: Side): TNode?
    requires side != Undef
  {
    if side == Left then r.left else r.right
  }

  function WithChild(r: Rec, side: Side, c: TNode?): Rec
    requires side != Undef
  {
    if side == Left then r.(left := c) else r.(right := c)
  }

  /**
   The fields before and after a rotation at `p`: its child `s` on `side` takes its place, and
   `inner`, the inner child of `s`, moves under `p`.  The new balance factors are `bp` and `bs`.
   */
  ghost predicate Rotates(m: Fields, m': Fields, p: TNode, side: Side, s: TNode,
                          inner: TNode?, par: TNode?, bp: int, bs: int)
    requires side != Undef
  {
    && p in m && s in m && m'.Keys == m.Keys
    && (forall n :: n in m && n != p && n != s && n != inner && n != par ==> m'[n] == m[n])
    && m'[p] == WithChild(m[p], side, inner).(parent := s, side := Opposite(side), bfc := bp)
    && m'[s] == WithChild(m[s], Opposite(side), p).(parent := par, side := m[p].side, bfc := bs)
    && (inner in m ==> m'[inner] == m[inner].(parent := p, side := side))
    && (par in m ==> m'[par] == WithChild(m[par], if Child(m[par], side) == p then side else Opposite(side), s))
  }

  /** Two nodes, three subtrees and a context, no two of which share a node. */
  ghost predicate Five(c: TCtx, a: TShape, s: TNode, b: TShape, p: TNode, d: TShape) {
    && CtxDisj(c) && Disj(a) && Disj(b) && Disj(d) && s != p
    && s !in Nodes(a) && s !in Nodes(b) && s !in Nodes(d) && s !in CtxNodes(c)
    && p !in Nodes(a) && p !in Nodes(b) && p !in Nodes(d) && p !in CtxNodes(c)
    && Nodes(a) !! Nodes(b) && Nodes(a) !! Nodes(d) && Nodes(b) !! Nodes(d)
    && CtxNodes(c) !! Nodes(a) && CtxNodes(c) !! Nodes(b) && CtxNodes(c) !! Nodes(d)
  }

  lemma {:induction false} FiveApart(c: TCtx, a: TShape, s: TNode, b: TShape, p: TNode, d: TShape)
    ensures Five(c, a, s, b, p, d) <==> Apart(c, Node(Node(a, s, b), p, d))
  {
    var x := Node(a, s, b);
    assert Nodes(x) == Nodes(a) + {s} + Nodes(b);
    assert Disj(x) <==> Disj(a) && Disj(b) && s !in Nodes(a) && s !in Nodes(b) && Nodes(a) !! Nodes(b);
  }

  /** The links that survive a rotation as they are or re-hung. */
  lemma {:induction false} RotateParts(m: Fields, m': Fields, c: TCtx, side: Side,
                                       a: TShape, s: TNode, b: TShape, p: TNode, d: TShape, bp: int, bs: int)
    requires side != Undef && Rotates(m, m', p, side, s, Root(b), CtxParent(c), bp, bs)
    requires Five(c, a, s, b, p, d) || Five(c, d, p, b, s, a)
    requires Linked(m, a, s, side) && Linked(m, b, s, Opposite(side)) && Linked(m, d, p, Opposite(side))
    requires CtxLinked(m, c, p)
    ensures Linked(m', a, s, side) && Linked(m', b, p, side) && Linked(m', d, p, Opposite(side))
    ensures CtxLinked(m', c, s)
  {
    assert b.Node? ==> b.n in Nodes(b);
    assert !c.Top? ==> c.n in CtxNodes(c);
    LinkedFrame(m, m', a, s, side);
    Rehung(m, m', b, s, Opposite(side), p, side);
    LinkedFrame(m, m', d, p, Opposite(side));
    Refilled(m, m', c, p, s);
  }

  /** Right rotation: the links spell out the rotated shape, with the same nodes in the same order. */
  lemma {:induction false} RotateLeftChild(m: Fields, m': Fields, c: TCtx, a: TShape, s: TNode, b: TShape,
                                           p: TNode, d: TShape, bp: int, bs: int)
    requires Apart(c, Node(Node(a, s, b), p, d)) && Zip(m, c, Node(Node(a, s, b), p, d))
    requires Rotates(m, m', p, Left, s, Root(b), CtxParent(c), bp, bs)
    ensures Zip(m', c, Node(a, s, Node(b, p, d))) && Apart(c, Node(a, s, Node(b, p, d)))
  {
    FiveApart(c, a, s, b, p, d);
    Reassociate(a, s, b, p, d);
    assert Linked(m, Node(a, s, b), p, Left);
    RotateParts(m, m', c, Left, a, s, b, p, d, bp, bs);
    assert Linked(m', Node(b, p, d), s, Right);
  }

  /** Left rotation. */
  lemma {:induction false} RotateRightChild(m: Fields, m': Fields, c: TCtx, a: TShape, p: TNode, b: TShape,
                                            s: TNode, d: TShape, bp: int, bs: int)
    requires Apart(c, Node(a, p, Node(b, s, d))) && Zip(m, c, Node(a, p, Node(b, s, d)))
    requires Rotates(m, m', p, Right, s, Root(b), CtxParent(c), bp, bs)
    ensures Zip(m', c, Node(Node(a, p, b), s, d)) && Apart(c, Node(Node(a, p, b), s, d))
  {
    Reassociate(a, p, b, s, d);
    FiveApart(c, a, p, b, s, d);
    assert Linked(m, Node(b, s, d), p, Right);
    RotateParts(m, m', c, Right, d, s, b, p, a, bp, bs);
    assert Linked(m', Node(a, p, b), s, Left);
  }
}
