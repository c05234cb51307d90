/**
 Climbing to the root after a leaf was added or removed (kernel/ds/ttree.c).
 */
module TFixup {
  import opened Shapes
  import opened TNodes
  import opened TLinks
  import opened TContent
  import opened TRotate
  import opened TBalance
  import opened TRebalance
  import opened TThread

  /** The subtree one level up from the hole. */
  ghost function Up(c: TCtx, s: TShape): TShape
    requires !c.Top?
  {
    if c.InLeft? then Node(s, c.n, c.r) else Node(c.l, c.n, s)
  }

  ghost function WithBfc(m: Fields, n: TNode, b: int): Fields
    requires n in m
  {
    m[n := m[n].(bfc := b)]
  }

  /** Changing one balance factor disturbs neither links nor the balance elsewhere. */
  lemma {:induction false} BfcFrame(m: Fields, c: TCtx, s: TShape, b: int)
    requires !c.Top? && Apart(c, s) && Zip(m, c, s) && Bal(m, s)
    requires c.n in m && Bal(m, if c.InLeft? then c.r else c.l)
    ensures var m' := WithBfc(m, c.n, b);
      && Apart(c.up, Up(c, s)) && Zip(m', c.up, Up(c, s)) && Bal(m', s)
      && Bal(m', if c.InLeft? then c.r else c.l)
    ensures SameContent(m, WithBfc(m, c.n, b))
  {
    var m' := WithBfc(m, c.n, b);
    if c.InLeft? {
      ApartDown(c.up, s, c.n, c.r);
      ZipDown(m, c.up, s, c.n, c.r);
      BalFrame(m, m', c.r);
    } else {
      ApartDown(c.up, c.l, c.n, s);
      ZipDown(m, c.up, c.l, c.n, s);
      BalFrame(m, m', c.l);
    }
    LinkedFrame(m, m', Up(c, s), CtxParent(c.up), CtxSide(c.up));
    CtxLinkedFrame(m, m', c.up, c.n);
    BalFrame(m, m', s);
  }

  ghost function Bfc(s: TShape): int
    requires s.Node?
  {
    Height(s.r) - Height(s.l)
  }

  ghost function Sibling(c: TCtx): TShape
    requires !c.Top?
  {
    if c.InLeft? then c.r else c.l
  }

  /** What the balance of the surroundings says about the node above a subtree of height `h`. */
  lemma {:induction false} HoleBal(m: Fields, c: TCtx, s: TShape, h: int, b: int)
    requires !c.Top? && CtxBal(m, c, h) && CtxDisj(c)
    ensures var k := Height(Sibling(c));
      && c.n in m && m[c.n].bfc == (if c.InLeft? then k - h else h - k) && -1 <= m[c.n].bfc <= 1
      && Bal(m, Sibling(c))
      && Bfc(Up(c, s)) == (if c.InLeft? then k - Height(s) else Height(s) - k)
      && Height(Up(c, s)) == Over(Height(s), k)
      && CtxBal(WithBfc(m, c.n, b), c.up, Over(h, k))
  {
    var k := Height(Sibling(c));
    assert Over(h, k) == Over(k, h) && Over(Height(s), k) == Over(k, Height(s));
    CtxBalFrame(m, WithBfc(m, c.n, b), c.up, Over(h, k));
  }

  /** A subtree in its surroundings whose two sides are balanced and whose own factor is the right one. */
  ghost predicate Perched(m: Fields, c: TCtx, t: TShape) {
    && t.Node? && Apart(c, t) && Zip(m, c, t) && Bal(m, t.l) && Bal(m, t.r)
    && t.n in m && m[t.n].bfc == Bfc(t)
  }

  /** Storing the right factor one level up from a subtree whose height was `h`. */
  lemma {:induction false} StepUp(m: Fields, c: TCtx, s: TShape, h: int)
    requires !c.Top? && Sound(m, c, s) && CtxBal(m, c, h)
    ensures c.n in m
    ensures var m' := WithBfc(m, c.n, Bfc(Up(c, s)));
      && Perched(m', c.up, Up(c, s)) && CtxBal(m', c.up, Over(h, Height(Sibling(c)))) && SameContent(m, m')
  {
    HoleBal(m, c, s, h, Bfc(Up(c, s)));
    BfcFrame(m, c, s, Bfc(Up(c, s)));
  }

  /** Links, distinctness and balance of the whole tree. */
  ghost predicate Whole(m: Fields, s: TShape) {
    Disj(s) && Linked(m, s, null, Undef) && Bal(m, s)
  }

  lemma {:induction false} WholeZip(m: Fields, c: TCtx, s: TShape)
    ensures Whole(m, Plug(c, s)) <==> Sound(m, c, s) && CtxBal(m, c, Height(s))
  {
    PlugDisj(c, s);
    PlugLinked(m, c, s);
    PlugBal(m, c, s);
  }

  /** In a linked tree only the root has no parent. */
  lemma {:induction false} OnlyRoot(m: Fields, s: TShape, par: TNode?, sd: Side, n: TNode)
    requires Linked(m, s, par, sd) && n in Nodes(s)
    ensures n in m && (n != s.n ==> m[n].parent != null)
  {
    if n != s.n {
      if n in Nodes(s.l) {
        OnlyRoot(m, s.l, s.n, Left, n);
      } else {
        OnlyRoot(m, s.r, s.n, Right, n);
      }
    }
  }

  lemma {:induction false} PlugRoot(c: TCtx, s: TShape, s': TShape)
    requires s.Node? && s'.Node?
    ensures Plug(c, s).Node? && Plug(c, s').Node?
    ensures !c.Top? ==> Plug(c, s).n == Plug(c, s').n
    decreases c
  {
    if !c.Top? {
      PlugRoot(c.up, Up(c, s), Up(c, s'));
    }
  }

  /** The tree after a climb: balanced, with the same nodes and keys in order, and threads untouched. */
  ghost predicate Fixed(m: Fields, m': Fields, q: seq<TNode>, s: TShape) {
    && m'.Keys == m.Keys && Whole(m', s) && Inorder(s) == q && Flat(m', q) == Flat(m, q)
    && forall n :: n in m ==> m'[n].successor == m[n].successor
  }

  lemma {:induction false} FixedPlain(m: Fields, m': Fields, c: TCtx, s: TShape)
    requires SameContent(m, m') && Sound(m', c, s) && CtxBal(m', c, Height(s))
    ensures Fixed(m, m', Inorder(Plug(c, s)), Plug(c, s))
  {
    WholeZip(m', c, s);
    FlatFrame(m, m', Inorder(Plug(c, s)));
  }

  /** The climb ends with a rotation below `c`. */
  lemma {:induction false} FixedRotated(m: Fields, m1: Fields, m2: Fields, c: TCtx, s: TShape, s': TShape)
    requires SameContent(m, m1) && Rebalanced(m1, m2, c, s, s') && CtxBal(m1, c, Height(s')) && Apart(c, s)
    ensures Fixed(m, m2, Inorder(Plug(c, s)), Plug(c, s'))
  {
    CtxBalFrame(m1, m2, c, Height(s'));
    WholeZip(m2, c, s');
    RebalancedFlat(m1, m2, c, s, s');
    FlatFrame(m, m1, Inorder(Plug(c, s)));
  }

  lemma {:induction false} RebalancedFlat(m: Fields, m': Fields, c: TCtx, s: TShape, s': TShape)
    requires Rebalanced(m, m', c, s, s') && Apart(c, s)
    ensures Inorder(Plug(c, s')) == Inorder(Plug(c, s))
    ensures Flat(m', Inorder(Plug(c, s))) == Flat(m, Inorder(Plug(c, s)))
  {
    PlugInorder(c, s);
    PlugInorder(c, s');
    var a, b := Before(c), After(c);
    CtxRow(c);
    assert forall i :: 0 <= i < |a| ==> a[i] !in Nodes(s) && Items(m', a[i]) == Items(m, a[i]);
    assert forall i :: 0 <= i < |b| ==> b[i] !in Nodes(s) && Items(m', b[i]) == Items(m, b[i]);
    FlatFrame(m, m', a);
    FlatFrame(m, m', b);
    FlatAppend(m, a + Inorder(s), b);
    FlatAppend(m, a, Inorder(s));
    FlatAppend(m', a + Inorder(s), b);
    FlatAppend(m', a, Inorder(s));
  }

  lemma {:induction false} RootAfter(m: Fields, c: TCtx, s: TShape, s': TShape, root: TNode)
    requires Sound(m, c, s') && s.Node? && s'.Node? && Nodes(s) == Nodes(s') && root == Root(Plug(c, s))
    ensures root in m && Root(Plug(c, s')) == (if m[root].parent != null then s'.n else root)
  {
    PlugRoot(c, s, s');
    if c.Top? {
      assert s.n in Nodes(s);
      OnlyRoot(m, s', null, Undef, s.n);
    } else {
      PlugLinked(m, c, s');
    }
  }

  /** Rebalancing, with the tree's root pointer kept up to date. */
  method RebalanceAt(ghost ns: set<TNode>, k: int, p: TNode, root: TNode, ghost c: TCtx, ghost l: TShape,
        ghost r: TShape)
    returns (t: TNode, root': TNode, ghost s': TShape)
    requires k >= 2 && Windows(ns, k) && Filled(Snap(ns)) && Tilted(Snap(ns), c, l, p, r)
    requires root == Root(Plug(c, Node(l, p, r)))
    modifies ns`parent, ns`side, ns`left, ns`right, ns`bfc
    modifies ns`minIdx, ns`maxIdx, ns`items, set n | n in ns :: n.keys
    ensures Windows(ns, k) && Filled(Snap(ns))
    ensures Root(s') == t && Rebalanced(old(Snap(ns)), Snap(ns), c, Node(l, p, r), s')
    ensures old(Heavier(p)) != null && (old(Heavier(p).bfc) != 0 ==> t.bfc == 0)
    ensures root' == Root(Plug(c, s'))
  {
    t, s' := Rebalance(ns, k, p, c, l, r);
    RootAfter(Snap(ns), c, Node(l, p, r), s', root);
    root' := if root.parent != null then t else root;
  }

  /** Midway up after an insertion: `s` has grown by a level, everything around it is as it was. */
  ghost predicate Climb(m0: Fields, m: Fields, c: TCtx, s: TShape, w: TShape) {
    && s.Node? && s.n in m && Sound(m, c, s) && CtxBal(m, c, Height(s) - 1)
    && Plug(c, s) == w && SameContent(m0, m) && (m[s.n].bfc != 0 || Height(s) == 1)
  }

  /** The climb stands below a node that has become unbalanced. */
  ghost predicate Stuck(m0: Fields, m: Fields, c: TCtx, s: TShape, w: TShape) {
    && s.Node? && Tilted(m, c, s.l, s.n, s.r) && CtxBal(m, c, Height(s) - 1)
    && Plug(c, s) == w && SameContent(m0, m)
    && (m[s.n].bfc < 0 ==> s.l.Node? && s.l.n in m && m[s.l.n].bfc != 0)
    && (m[s.n].bfc > 0 ==> s.r.Node? && s.r.n in m && m[s.r.n].bfc != 0)
  }

  /** One step up: done, still climbing, or stuck, by the balance of the node reached. */
  ghost predicate Stepped(m0: Fields, m: Fields, c: TCtx, s: TShape, w: TShape)
    requires s.Node?
  {
    && s.n in m && m[s.n].bfc == Bfc(s) && SameContent(m0, m)
    && if Bfc(s) == 0 then Fixed(m0, m, Inorder(w), w)
       else if -1 <= Bfc(s) <= 1 then Climb(m0, m, c, s, w)
       else Stuck(m0, m, c, s, w)
  }

  /** Heights and factors one level up from a subtree that grew. */
  lemma {:induction false} GrownHeights(m: Fields, c: TCtx, s: TShape)
    requires !c.Top? && CtxBal(m, c, Height(s) - 1) && CtxDisj(c)
    ensures c.n in m && m[c.n].bfc + SideBfc(CtxSide(c)) == Bfc(Up(c, s)) && -2 <= Bfc(Up(c, s)) <= 2
    ensures Over(Height(s) - 1, Height(Sibling(c)))
      == if Bfc(Up(c, s)) == 0 then Height(Up(c, s)) else Height(Up(c, s)) - 1
    ensures Bfc(Up(c, s)) == 2 ==> c.InRight? && Height(s) > 1
    ensures Bfc(Up(c, s)) == -2 ==> c.InLeft? && Height(s) > 1
  {
    HoleBal(m, c, s, Height(s) - 1, 0);
  }

  lemma {:induction false} ClimbStep(m0: Fields, m: Fields, c: TCtx, s: TShape, w: TShape)
    requires Climb(m0, m, c, s, w) && !c.Top?
    ensures c.n in m && m[c.n].bfc + SideBfc(CtxSide(c)) == Bfc(Up(c, s)) && m[s.n].parent == c.n
    ensures Stepped(m0, WithBfc(m, c.n, Bfc(Up(c, s))), c.up, Up(c, s), w)
  {
    hide Stepped, Bal, CtxBal, Perched, SameContent, Fixed, Stuck;
    StepUp(m, c, s, Height(s) - 1);
    GrownHeights(m, c, s);
    ClimbBelow(m, c, s);
    var m' := WithBfc(m, c.n, Bfc(Up(c, s)));
    ContentThen(m0, m, m');
    ClimbOn(m0, m', c.up, Up(c, s), w);
  }

  lemma {:induction false} ContentThen(a: Fields, b: Fields, c: Fields)
    requires SameContent(a, b) && SameContent(b, c)
    ensures SameContent(a, c)
  {
  }

  lemma {:induction false} ClimbBelow(m: Fields, c: TCtx, s: TShape)
    requires s.Node? && s.n in m && Sound(m, c, s) && !c.Top?
    ensures s.n in Nodes(s) && s.n != c.n && m[s.n].parent == c.n
  {
  }

  lemma {:induction false} ClimbOn(m0: Fields, m: Fields, c: TCtx, t: TShape, w: TShape)
    requires Perched(m, c, t) && SameContent(m0, m) && Plug(c, t) == w
    requires CtxBal(m, c, if Bfc(t) == 0 then Height(t) else Height(t) - 1)
    requires -2 <= Bfc(t) <= 2
    requires Bfc(t) == 2 ==> t.r.Node? && t.r.n in m && m[t.r.n].bfc != 0
    requires Bfc(t) == -2 ==> t.l.Node? && t.l.n in m && m[t.l.n].bfc != 0
    ensures Stepped(m0, m, c, t, w)
  {
    if Bfc(t) == 0 {
      FixedPlain(m0, m, c, t);
    }
  }

  lemma {:induction false} ClimbTop(m0: Fields, m: Fields, s: TShape, w: TShape)
    requires Climb(m0, m, Top, s, w)
    ensures Fixed(m0, m, Inorder(w), w)
  {
    FixedPlain(m0, m, Top, s);
  }

  lemma {:induction false} StuckHeavier(m0: Fields, m: Fields, c: TCtx, s: TShape, w: TShape)
    requires Stuck(m0, m, c, s, w)
    ensures s.n in m
    ensures var n := if m[s.n].bfc < 0 then m[s.n].left else m[s.n].right;
      n != null && n in m && m[n].bfc != 0
  {
  }

  lemma {:induction false} StuckRotated(m0: Fields, m1: Fields, m2: Fields, c: TCtx, s: TShape, s': TShape, w: TShape)
    requires Stuck(m0, m1, c, s, w) && Rebalanced(m1, m2, c, s, s') && s'.Node? && s'.n in m2 && m2[s'.n].bfc == 0
    ensures Fixed(m0, m2, Inorder(w), Plug(c, s'))
  {
    FixedRotated(m0, m1, m2, c, s, s');
  }

  /** The rotation that ends a climb after an insertion. */
  method Unstick(ghost ns: set<TNode>, k: int, p: TNode, root: TNode, ghost m0: Fields, ghost c: TCtx, ghost s: TShape)
    returns (root': TNode, ghost w: TShape)
    requires k >= 2 && Windows(ns, k) && Filled(Snap(ns)) && Stuck(m0, Snap(ns), c, s, Plug(c, s)) && s.n == p
    requires root == Root(Plug(c, s))
    modifies ns`parent, ns`side, ns`left, ns`right, ns`bfc
    modifies ns`minIdx, ns`maxIdx, ns`items, set n | n in ns :: n.keys
    ensures Windows(ns, k) && Filled(Snap(ns)) && root' == Root(w)
    ensures Fixed(m0, Snap(ns), Inorder(Plug(c, s)), w)
  {
    hide Windows, Filled, Fixed, Tilted, Linked, CtxLinked, Bal, CtxBal, Plug, Inorder;
    ghost var m1 := Snap(ns);
    StuckHeavier(m0, m1, c, s, Plug(c, s));
    assert Heavier(p) != null && m1[Heavier(p)] == RecOf(Heavier(p)) && Heavier(p).bfc != 0;
    var t;
    ghost var s';
    t, root', s' := RebalanceAt(ns, k, p, root, c, s.l, s.r);
    assert Snap(ns)[t] == RecOf(t);
    w := Plug(c, s');
    StuckRotated(m0, m1, Snap(ns), c, s, s', Plug(c, s));
  }

  method ClimbOne(ghost ns: set<TNode>, n: TNode, delta: int, ghost m0: Fields, ghost c: TCtx, ghost s: TShape,
        ghost w: TShape)
    returns (node: TNode)
    requires Climb(m0, Snap(ns), c, s, w) && n in ns && n == s.n && !c.Top? && delta == SideBfc(CtxSide(c))
    modifies ns`bfc
    ensures node == c.n && node in ns && Stepped(m0, Snap(ns), c.up, Up(c, s), w)
  {
    ClimbStep(m0, Snap(ns), c, s, w);
    node := n.parent;
    SetBfc(ns, node, node.bfc + delta);
  }

  /** Updates balance factors upwards from the new leaf `n`; `stuck` if that ends at an unbalanced node. */
  method ClimbUp(ghost ns: set<TNode>, n: TNode, ghost c0: TCtx, ghost w: TShape)
    returns (node: TNode, stuck: bool, ghost c: TCtx, ghost s: TShape)
    requires Climb(Snap(ns), Snap(ns), c0, Node(Nil, n, Nil), w) && !c0.Top? && n in ns
    modifies ns`bfc
    ensures if stuck then Stuck(old(Snap(ns)), Snap(ns), c, s, w) && s.n == node
            else Fixed(old(Snap(ns)), Snap(ns), Inorder(w), w)
    ensures SameContent(old(Snap(ns)), Snap(ns))
  {
    ghost var m0 := Snap(ns);
    c, s := c0, Node(Nil, n, Nil);
    stuck := false;
    node := n;
    var delta := SideBfc(n.side);
    while node.parent != null
      invariant Climb(m0, Snap(ns), c, s, w) && node == s.n && node in ns && !stuck
      invariant c.Top? || delta == SideBfc(CtxSide(c))
      decreases c
    {
      node := ClimbOne(ns, node, delta, m0, c, s, w);
      c, s := c.up, Up(c, s);
      if node.bfc == 0 {
        return;
      }
      if node.bfc < -1 || node.bfc > 1 {
        stuck := true;
        return;
      }
      if node.side != Undef {
        delta := SideBfc(node.side);
      }
    }
    ClimbTop(m0, Snap(ns), s, w);
  }

  method FixupAfterInsertion(ghost ns: set<TNode>, k: int, n: TNode, root: TNode, ghost c0: TCtx, ghost w: TShape)
    returns (root': TNode, ghost s': TShape)
    requires k >= 2 && Windows(ns, k) && Filled(Snap(ns)) && !c0.Top? && n in ns
    requires Climb(Snap(ns), Snap(ns), c0, Node(Nil, n, Nil), w) && root == Root(w)
    modifies ns`parent, ns`side, ns`left, ns`right, ns`bfc
    modifies ns`minIdx, ns`maxIdx, ns`items, set n | n in ns :: n.keys
    ensures Windows(ns, k) && Filled(Snap(ns)) && root' == Root(s')
    ensures Fixed(old(Snap(ns)), Snap(ns), Inorder(w), s')
  {
    ghost var m0 := Snap(ns);
    root', s' := root, w;
    ghost var c, s;
    var node, stuck;
    node, stuck, c, s := ClimbUp(ns, n, c0, w);
    StaysFilled(m0, Snap(ns));
    if stuck {
      root', s' := Unstick(ns, k, node, root', m0, c, s);
    }
  }

  /** Midway up after a deletion: `s` has shrunk by a level, everything around it is as it was. */
  ghost predicate Shrunk(m0: Fields, m: Fields, c: TCtx, s: TShape, q: seq<TNode>) {
    && Sound(m, c, s) && CtxBal(m, c, Height(s) + 1) && SameRow(m0, m, q) && Inorder(Plug(c, s)) == q
  }

  ghost predicate SameRow(m0: Fields, m: Fields, q: seq<TNode>) {
    && m.Keys == m0.Keys && Flat(m, q) == Flat(m0, q)
    && forall n :: n in m0 ==> m[n].successor == m0[n].successor
  }

  /** A climb after a deletion stands below a node whose sides differ by two levels. */
  ghost predicate Jammed(m0: Fields, m: Fields, c: TCtx, s: TShape, q: seq<TNode>) {
    && s.Node? && Tilted(m, c, s.l, s.n, s.r) && CtxBal(m, c, Height(s)) && SameRow(m0, m, q)
    && Inorder(Plug(c, s)) == q
  }

  /** One step up after a deletion, by the balance factor `was` of the node reached. */
  ghost predicate ShrinkStepped(m0: Fields, m: Fields, c: TCtx, s: TShape, q: seq<TNode>, was: int)
    requires s.Node?
  {
    && s.n in m && m[s.n].bfc == Bfc(s) && SameRow(m0, m, q)
    && if was == 0 then Fixed(m0, m, q, Plug(c, s))
       else if Bfc(s) == 0 then Shrunk(m0, m, c, s, q)
       else Jammed(m0, m, c, s, q)
  }

  lemma {:induction false} ShrunkHeights(m: Fields, c: TCtx, s: TShape)
    requires !c.Top? && CtxBal(m, c, Height(s) + 1) && CtxDisj(c)
    ensures c.n in m && m[c.n].bfc - SideBfc(CtxSide(c)) == Bfc(Up(c, s))
    ensures Over(Height(s) + 1, Height(Sibling(c)))
      == if Bfc(Up(c, s)) == 0 then Height(Up(c, s)) + 1 else Height(Up(c, s))
    ensures m[c.n].bfc == 0 ==> Bfc(Up(c, s)) == 1 || Bfc(Up(c, s)) == -1
    ensures m[c.n].bfc != 0 ==> Bfc(Up(c, s)) == 0 || Bfc(Up(c, s)) == 2 || Bfc(Up(c, s)) == -2
  {
    HoleBal(m, c, s, Height(s) + 1, 0);
  }

  lemma {:induction false} ShrinkStep(m0: Fields, m: Fields, c: TCtx, s: TShape, q: seq<TNode>)
    requires Shrunk(m0, m, c, s, q) && !c.Top?
    ensures c.n in m && m[c.n].bfc - SideBfc(CtxSide(c)) == Bfc(Up(c, s))
    ensures ShrinkStepped(m0, WithBfc(m, c.n, Bfc(Up(c, s))), c.up, Up(c, s), q, m[c.n].bfc)
  {
    hide Perched, CtxBal, ShrinkStepped, Inorder, Flat;
    StepUp(m, c, s, Height(s) + 1);
    ShrunkHeights(m, c, s);
    var m' := WithBfc(m, c.n, Bfc(Up(c, s)));
    FlatFrame(m, m', q);
    ShrinkOn(m0, m', c.up, Up(c, s), q, m[c.n].bfc);
  }

  lemma {:induction false} ShrinkOn(m0: Fields, m: Fields, c: TCtx, t: TShape, q: seq<TNode>, was: int)
    requires Perched(m, c, t) && SameRow(m0, m, q) && Inorder(Plug(c, t)) == q
    requires CtxBal(m, c, if Bfc(t) == 0 then Height(t) + 1 else Height(t))
    requires was == 0 ==> Bfc(t) == 1 || Bfc(t) == -1
    requires was != 0 ==> Bfc(t) == 0 || Bfc(t) == 2 || Bfc(t) == -2
    ensures ShrinkStepped(m0, m, c, t, q, was)
  {
    if was == 0 {
      WholeZip(m, c, t);
    }
  }

  method ShrinkOne(ghost ns: set<TNode>, node: TNode, delta: int, ghost m0: Fields, ghost c: TCtx, ghost s: TShape,
        ghost q: seq<TNode>)
    requires Shrunk(m0, Snap(ns), c, s, q) && !c.Top? && node == c.n && delta == SideBfc(CtxSide(c))
    modifies ns`bfc
    ensures node in ns && ShrinkStepped(m0, Snap(ns), c.up, Up(c, s), q, old(node.bfc))
    ensures SameContent(old(Snap(ns)), Snap(ns)) && (c.up.Top? || node.side == CtxSide(c.up))
    ensures old(node.bfc) != 0 ==> node.bfc == 0 || node.bfc == 2 || node.bfc == -2
  {
    ShrinkStep(m0, Snap(ns), c, s, q);
    SetBfc(ns, node, node.bfc - delta);
  }

  /** After the rotation: done if the height is back, else the shrunken subtree is one level up. */
  ghost predicate Loosened(m0: Fields, m: Fields, c: TCtx, s: TShape, q: seq<TNode>) {
    && s.Node? && s.n in m && Zip(m, c, s)
    && if m[s.n].bfc != 0 then Fixed(m0, m, q, Plug(c, s)) else Shrunk(m0, m, c, s, q)
  }

  lemma {:induction false} JamRotated(m0: Fields, m1: Fields, m2: Fields, c: TCtx, s: TShape, s': TShape, q: seq<TNode>)
    requires Jammed(m0, m1, c, s, q) && Rebalanced(m1, m2, c, s, s')
    ensures Loosened(m0, m2, c, s', q)
  {
    hide Inorder, Flat, CtxBal, Bal, Plug, Height;
    RebalancedFlat(m1, m2, c, s, s');
    CtxBalFrame(m1, m2, c, Height(s));
    WholeZip(m2, c, s');
  }

  method Unjam(ghost ns: set<TNode>, k: int, p: TNode, root: TNode, ghost m0: Fields, ghost c: TCtx, ghost s: TShape,
        ghost q: seq<TNode>)
    returns (t: TNode, root': TNode, ghost s': TShape)
    requires k >= 2 && Windows(ns, k) && Filled(Snap(ns)) && Jammed(m0, Snap(ns), c, s, q) && s.n == p
    requires root == Root(Plug(c, s))
    modifies ns`parent, ns`side, ns`left, ns`right, ns`bfc
    modifies ns`minIdx, ns`maxIdx, ns`items, set n | n in ns :: n.keys
    ensures Windows(ns, k) && Filled(Snap(ns)) && t in ns && Root(s') == t && root' == Root(Plug(c, s'))
    ensures Loosened(m0, Snap(ns), c, s', q)
  {
    ghost var m1 := Snap(ns);
    t, root', s' := RebalanceAt(ns, k, p, root, c, s.l, s.r);
    JamRotated(m0, m1, Snap(ns), c, s, s', q);
  }

  /** One round of the climb after a deletion; `done` if no more heights change above. */
  method ShrinkRound(ghost ns: set<TNode>, k: int, node: TNode, delta: int, root: TNode,
                     ghost m0: Fields, ghost c: TCtx, ghost s: TShape, ghost q: seq<TNode>)
    returns (done: bool, next: TNode, delta': int, root': TNode, ghost s': TShape)
    requires k >= 2 && Windows(ns, k) && Filled(Snap(ns)) && Shrunk(m0, Snap(ns), c, s, q) && !c.Top?
    requires node == c.n && delta == SideBfc(CtxSide(c)) && root == Root(Plug(c.up, Up(c, s)))
    modifies ns`parent, ns`side, ns`left, ns`right, ns`bfc
    modifies ns`minIdx, ns`maxIdx, ns`items, set n | n in ns :: n.keys
    ensures Windows(ns, k) && Filled(Snap(ns)) && next in ns && s'.Node? && s'.n == next
    ensures root' == Root(Plug(c.up, s')) && (c.up.Top? || delta' == SideBfc(CtxSide(c.up)))
    ensures if done then Fixed(m0, Snap(ns), q, Plug(c.up, s')) else Shrunk(m0, Snap(ns), c.up, s', q)
  {
    hide Windows, Filled, Fixed, Shrunk, Jammed, Plug, SameRow, SameContent;
    var was := node.bfc;
    ghost var m := Snap(ns);
    ShrinkOne(ns, node, delta, m0, c, s, q);
    StaysFilled(m, Snap(ns));
    ghost var t := Up(c, s);
    assert Snap(ns)[node] == RecOf(node);
    done, next, delta', root', s' := false, node, delta, root, t;
    if was == 0 {
      done := true;
    }
    if node.side != Undef {
      delta' := SideBfc(node.side);
    }
    if !done && (node.bfc < -1 || node.bfc > 1) {
      next, root', s' := Unjam(ns, k, node, root, m0, c.up, t, q);
      done := next.bfc != 0;
    }
  }

  method FixupAfterDeletion(ghost ns: set<TNode>, k: int, parent: TNode, side: Side, root: TNode, ghost c0: TCtx,
        ghost q: seq<TNode>)
    returns (root': TNode, ghost w: TShape)
    requires k >= 2 && Windows(ns, k) && Filled(Snap(ns)) && !c0.Top? && parent == c0.n && side == CtxSide(c0)
    requires Shrunk(Snap(ns), Snap(ns), c0, Nil, q) && root == Root(Plug(c0, Nil))
    modifies ns`parent, ns`side, ns`left, ns`right, ns`bfc
    modifies ns`minIdx, ns`maxIdx, ns`items, set n | n in ns :: n.keys
    ensures Windows(ns, k) && Filled(Snap(ns)) && root' == Root(w)
    ensures Fixed(old(Snap(ns)), Snap(ns), q, w)
  {
    ghost var m0, c, s := Snap(ns), c0, Nil;
    var node: TNode?, delta := parent, SideBfc(side);
    root' := root;
    while node != null
      invariant Shrunk(m0, Snap(ns), c, s, q) && node == CtxParent(c)
      invariant Windows(ns, k) && Filled(Snap(ns))
      invariant (c.Top? ==> s.Node?) && root' == Root(Plug(c, s))
      invariant c.Top? || delta == SideBfc(CtxSide(c))
      decreases c
    {
      var done, next;
      ghost var s';
      done, next, delta, root', s' := ShrinkRound(ns, k, node, delta, root', m0, c, s, q);
      c, s := c.up, s';
      if done {
        w := Plug(c, s);
        return;
      }
      node := next.parent;
    }
    w := s;
    WholeZip(Snap(ns), c, s);
  }
}
