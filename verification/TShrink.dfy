/**
 Removing an emptied leaf from a T*-tree: unhooking it, taking it off the
 thread, rebalancing (kernel/ds/ttree.c).
 */
module TShrink {
  import opened Shapes
  import opened TNodes
  import opened TLinks
  import opened TContent
  import opened TBalance
  import opened TRebalance
  import opened TThread
  import opened TFixup
  import opened TGrow
  import opened TKeys

  /** All nodes but `e` hold a key. */
  ghost predicate FilledBut(m: Fields, e: TNode) { forall n :: n in m && n != e ==> m[n].items != [] }

  /** The fields after the child pointer at the hole of `h` was cleared. */
  ghost predicate Unhooks(m: Fields, m': Fields, h: TCtx) {
    && !h.Top? && h.n in m && m'.Keys == m.Keys
    && m'[h.n] == WithChild(m[h.n], CtxSide(h), null)
    && forall x :: x in m && x != h.n ==> m'[x] == m[x]
  }

  method Unhook(ghost ns: set<TNode>, n: TNode, ghost h: TCtx)
    requires !h.Top? && n.parent == h.n && n.side == CtxSide(h) && h.n in ns
    modifies h.n`left, h.n`right
    ensures Unhooks(old(Snap(ns)), Snap(ns), h)
  {
    n.parent.SetChild(n.side, null);
  }

  lemma {:induction false} UnhookedLinks(m: Fields, m': Fields, h: TCtx, n: TNode)
    requires Sound(m, h, Node(Nil, n, Nil)) && CtxBal(m, h, 1) && Unhooks(m, m', h)
    ensures CtxLinked(m', h, null) && CtxBal(m', h, 1)
    ensures n in m' && m'[n].parent == h.n && m'[n].side == CtxSide(h)
  {
    assert n in Nodes(Node(Nil, n, Nil)) && h.n in CtxNodes(h);
    Refilled(m, m', h, n, null);
    CtxBalFrame(m, m', h, 1);
  }

  ghost function Without(m: Fields, n: TNode): Fields { map x | x in m && x != n :: m[x] }

  lemma {:induction false} HoleRow(h: TCtx)
    ensures forall i :: 0 <= i < |Before(h) + After(h)| ==> (Before(h) + After(h))[i] in CtxNodes(h)
    ensures forall n :: n in CtxNodes(h) ==> n in Before(h) + After(h)
  {
    CtxRow(h);
    hide Before, After, CtxNodes;
  }

  /** Neither links nor balance around the hole depend on the forgotten leaf or on threads. */
  lemma {:induction false} ForgottenLinks(m: Fields, m': Fields, h: TCtx, n: TNode)
    requires n !in CtxNodes(h) && OnlyThreads(m, m') && CtxLinked(m, h, null) && CtxBal(m, h, 1)
    ensures CtxLinked(Without(m', n), h, null) && CtxBal(Without(m', n), h, 1)
  {
    var w := Without(m', n);
    CtxLinkedFrame(m, w, h, null);
    CtxBalFrame(m, w, h, 1);
  }

  lemma {:induction false} ForgottenRow(m: Fields, m': Fields, a: seq<TNode>, n: TNode, b: seq<TNode>)
    requires NoDup(a + [n] + b) && Threaded(m', a + b) && OnlyThreads(m, m')
    ensures Threaded(Without(m', n), a + b)
    ensures Flat(Without(m', n), a + b) == Flat(m, a) + Flat(m, b)
  {
    var w := Without(m', n);
    RowWithout(a, n, b);
    FlatAppend(w, a, b);
    FlatFrame(m, w, a);
    FlatFrame(m, w, b);
  }

  lemma {:induction false} ThreadsOutOnly(m: Fields, m': Fields, a: seq<TNode>, b: seq<TNode>)
    requires ThreadsOut(m, m', a, b)
    ensures OnlyThreads(m, m')
  {
  }

  lemma {:induction false} LeafRow(h: TCtx, n: TNode)
    requires Apart(h, Node(Nil, n, Nil))
    ensures NoDup(Before(h) + [n] + After(h)) && Inorder(Plug(h, Node(Nil, n, Nil))) == Before(h) + [n] + After(h)
  {
    LeafFacts(n);
    RowNoDup(h, Node(Nil, n, Nil));
    PlugInorder(h, Node(Nil, n, Nil));
  }

  lemma {:induction false} HoleInorder(h: TCtx)
    ensures Inorder(Plug(h, Nil)) == Before(h) + After(h)
  {
    PlugInorder(h, Nil);
    assert Before(h) + [] + After(h) == Before(h) + After(h);
  }

  /** Once the leaf is off the thread and forgotten, the climb may start. */
  lemma {:induction false} ReadyToShrink(m: Fields, m': Fields, h: TCtx, n: TNode)
    requires Apart(h, Node(Nil, n, Nil)) && CtxLinked(m, h, null) && CtxBal(m, h, 1)
    requires Threaded(m, Before(h) + [n] + After(h)) && ThreadsOut(m, m', Before(h), After(h))
    ensures var w := Without(m', n);
      && Shrunk(w, w, h, Nil, Before(h) + After(h)) && Threaded(w, Before(h) + After(h))
      && Flat(w, Before(h) + After(h)) == Flat(m, Before(h)) + Flat(m, After(h))
  {
    hide Before, After, Plug, Threaded, Flat, NoDup, CtxLinked, CtxBal, CtxDisj, CtxNodes, ThreadsOut, OnlyThreads;
    hide Inorder, Next;
    LeafFacts(n);
    LeafRow(h, n);
    HoleInorder(h);
    ThreadRemoved(m, m', Before(h), n, After(h));
    ThreadsOutOnly(m, m', Before(h), After(h));
    ForgottenLinks(m, m', h, n);
    ForgottenRow(m, m', Before(h), n, After(h));
  }

  lemma {:induction false} BareFixed(m: Fields, m': Fields, q: seq<TNode>, s: TShape)
    requires Fixed(m, m', q, s) && Threaded(m, q)
    requires forall i :: 0 <= i < |q| ==> q[i] in m
    requires forall n :: n in m ==> n in q
    ensures Bare(m', s) && Flat(m', Inorder(s)) == Flat(m, q)
  {
    InorderNodes(s);
    hide Whole, Flat, Inorder, Nodes, Next;
    assert m'.Keys == Nodes(s);
  }

  lemma {:induction false} ShrunkTree(m: Fields, m': Fields, h: TCtx, s: TShape)
    requires Fixed(m, m', Before(h) + After(h), s) && Threaded(m, Before(h) + After(h)) && m.Keys == CtxNodes(h)
    ensures Bare(m', s) && Flat(m', Inorder(s)) == Flat(m, Before(h) + After(h))
  {
    HoleRow(h);
    hide Before, After, CtxNodes;
    BareFixed(m, m', Before(h) + After(h), s);
  }

  /** The leaf is off the tree and the thread; only the balance is not yet restored. */
  ghost predicate Uprooted(m: Fields, w: Fields, h: TCtx) {
    && Shrunk(w, w, h, Nil, Before(h) + After(h)) && Threaded(w, Before(h) + After(h)) && w.Keys == CtxNodes(h)
    && Flat(w, Before(h) + After(h)) == Flat(m, Before(h)) + Flat(m, After(h))
  }

  /** What must hold of the emptied leaf `n` before it can be removed. */
  ghost predicate Removable(m: Fields, h: TCtx, n: TNode) {
    && !h.Top? && Bare(m, Plug(h, Node(Nil, n, Nil))) && n in m && m[n].items == [] && FilledBut(m, n)
  }

  lemma {:induction false} RemovableRow(m: Fields, h: TCtx, n: TNode)
    requires Apart(h, Node(Nil, n, Nil)) && Threaded(m, Inorder(Plug(h, Node(Nil, n, Nil)))) && n in m
    requires m[n].items == []
    ensures Threaded(m, Before(h) + [n] + After(h))
    ensures Flat(m, Inorder(Plug(h, Node(Nil, n, Nil)))) == Flat(m, Before(h)) + Flat(m, After(h))
  {
    LeafRow(h, n);
    hide *;
    FlatAround(m, Before(h), n, After(h));
    EmptyBetween(Flat(m, Before(h)), Items(m, n), Flat(m, After(h)));
  }

  lemma {:induction false} EmptyBetween(a: seq<int>, e: seq<int>, b: seq<int>)
    requires e == []
    ensures a + e + b == a + b
  {
  }

  lemma {:induction false} RemovableLinks(m: Fields, h: TCtx, n: TNode)
    requires !h.Top? && Whole(m, Plug(h, Node(Nil, n, Nil))) && m.Keys == Nodes(Plug(h, Node(Nil, n, Nil)))
    ensures Sound(m, h, Node(Nil, n, Nil)) && CtxBal(m, h, 1) && m.Keys == CtxNodes(h) + {n} && n !in CtxNodes(h)
    ensures h.n in m && m[n].parent == h.n && m[n].side == CtxSide(h)
  {
    LeafFacts(n);
    WholeZip(m, h, Node(Nil, n, Nil));
    PlugNodes(h, Node(Nil, n, Nil));
    assert h.n in CtxNodes(h);
  }

  lemma {:induction false} UprootedSteps(m: Fields, m1: Fields, m2: Fields, h: TCtx, n: TNode)
    requires Removable(m, h, n) && Unhooks(m, m1, h) && ThreadsOut(m1, m2, Before(h), After(h))
    ensures Uprooted(m, Without(m2, n), h) && Filled(Without(m2, n))
  {
    hide Linked, Bal, CtxBal, CtxLinked, Disj, CtxDisj, Before, After, Plug, Flat, Threaded, Whole, Inorder, CtxNodes;
    hide Nodes;
    RemovableLinks(m, h, n);
    RemovableRow(m, h, n);
    UnhookedLinks(m, m1, h, n);
    UnhookedRow(m, m1, h, n);
    ReadyToShrink(m1, m2, h, n);
    assert Without(m2, n).Keys == m2.Keys - {n};
  }

  lemma {:induction false} UnhookedRow(m: Fields, m1: Fields, h: TCtx, n: TNode)
    requires Unhooks(m, m1, h) && Threaded(m, Before(h) + [n] + After(h))
    ensures Threaded(m1, Before(h) + [n] + After(h))
    ensures Flat(m1, Before(h)) == Flat(m, Before(h)) && Flat(m1, After(h)) == Flat(m, After(h))
  {
    FlatFrame(m, m1, Before(h));
    FlatFrame(m, m1, After(h));
  }

  lemma {:induction false} Unthreadable(m: Fields, m1: Fields, h: TCtx, n: TNode)
    requires Removable(m, h, n) && Unhooks(m, m1, h)
    ensures Apart(h, Node(Nil, n, Nil)) && CtxLinked(m1, h, null) && Threaded(m1, Before(h) + [n] + After(h))
    ensures n in m1 && m1[n].parent == h.n && m1[n].side == CtxSide(h)
  {
    hide Linked, Bal, CtxBal, CtxLinked, Disj, CtxDisj, Before, After, Plug, Flat, Threaded, Whole, Inorder, CtxNodes;
    hide Nodes;
    RemovableLinks(m, h, n);
    RemovableRow(m, h, n);
    UnhookedLinks(m, m1, h, n);
    UnhookedRow(m, m1, h, n);
  }

  method Uproot(ghost ns: set<TNode>, n: TNode, ghost h: TCtx)
    requires n in ns && Removable(Snap(ns), h, n)
    modifies ns`left, ns`right, ns`successor
    ensures Uprooted(old(Snap(ns)), Snap(ns - {n}), h) && Filled(Snap(ns - {n}))
    ensures n.parent == h.n && n.side == CtxSide(h)
  {
    hide Uprooted, Threaded, CtxLinked, Disj, CtxDisj, ThreadsOut, Filled, Whole, Plug, Inorder, Before, After;
    hide CtxBal, Nodes, CtxNodes;
    ghost var m := Snap(ns);
    RemovableLinks(m, h, n);
    Unhook(ns, n, h);
    ghost var m1 := Snap(ns);
    Unthreadable(m, m1, h, n);
    RemoveSuccessor(ns, n, h);
    UprootedSteps(m, m1, Snap(ns), h, n);
    assert Snap(ns - {n}) == Without(Snap(ns), n);
  }

  lemma {:induction false} UprootedTree(m: Fields, w: Fields, m': Fields, h: TCtx, n: TNode, s: TShape)
    requires Removable(m, h, n) && Uprooted(m, w, h) && Fixed(w, m', Before(h) + After(h), s)
    ensures Bare(m', s) && Flat(m', Inorder(s)) == Flat(m, Inorder(Plug(h, Node(Nil, n, Nil))))
  {
    RemovableLinks(m, h, n);
    RemovableRow(m, h, n);
    ShrunkTree(w, m', h, s);
  }

  lemma {:induction false} FewerWindows(ns: set<TNode>, n: TNode, k: int)
    requires Windows(ns, k)
    ensures Windows(ns - {n}, k)
  {
  }

  /** Removes the emptied leaf `n` at `h`. */
  method RemoveLeaf(ghost ns: set<TNode>, k: int, root: TNode, n: TNode, ghost h: TCtx)
    returns (root': TNode, ghost s': TShape)
    requires k >= 2 && Windows(ns, k) && n in ns && !h.Top? && Removable(Snap(ns), h, n)
    requires root == Root(Plug(h, Node(Nil, n, Nil)))
    modifies ns, set n | n in ns :: n.keys
    ensures Windows(ns - {n}, k) && Filled(Snap(ns - {n})) && Bare(Snap(ns - {n}), s') && root' == Root(s')
    ensures Flat(Snap(ns - {n}), Inorder(s')) == old(Flat(Snap(ns), Inorder(Plug(h, Node(Nil, n, Nil)))))
  {
    hide Windows, Removable, Bare, Fixed, Shrunk, Threaded, Flat, Inorder, Plug, Before, After, Filled, CtxNodes;
    ghost var m, rest := Snap(ns), ns - {n};
    Uproot(ns, n, h);
    ghost var w := Snap(rest);
    FewerWindows(ns, n, k);
    PlantedRoot(h, n);
    root', s' := FixupAfterDeletion(rest, k, n.parent, n.side, root, h, Before(h) + After(h));
    UprootedTree(m, w, Snap(rest), h, n, s');
  }
}
