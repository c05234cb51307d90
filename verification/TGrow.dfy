/**
 Adding a leaf to a T*-tree: hooking it in, threading it, rebalancing
 (kernel/ds/ttree.c).
 */
module TGrow {
  import opened Shapes
  import opened TNodes
  import opened TLinks
  import opened TContent
  import opened TBalance
  import opened TRebalance
  import opened TThread
  import opened TFixup

  /** Everything that holds of the fields of a T*-tree between two operations. */
  ghost predicate Tree(m: Fields, s: TShape) {
    && m.Keys == Nodes(s) && Whole(m, s) && Filled(m)
    && Threaded(m, Inorder(s)) && Ascending(Flat(m, Inorder(s)))
  }

  /** The fields after a leaf `n` with one key was hooked into the hole of `h`. */
  ghost predicate Hooks(m: Fields, m': Fields, h: TCtx, n: TNode, key: int) {
    && !h.Top? && n !in m && h.n in m && m'.Keys == m.Keys + {n}
    && m'[n] == Rec(h.n, null, null, CtxSide(h), 0, null, [key])
    && m'[h.n] == WithChild(m[h.n], CtxSide(h), n)
    && forall x :: x in m && x != h.n ==> m'[x] == m[x]
  }

  lemma {:induction false} LeafFacts(n: TNode)
    ensures var s := Node(Nil, n, Nil);
      Nodes(s) == {n} && Inorder(s) == [n] && Disj(s) && Height(s) == 1 && Bfc(s) == 0
  {
    var s := Node(Nil, n, Nil);
    assert Height(s.l) == 0 && Height(s.r) == 0 && Inorder(s.l) == [] && Inorder(s.r) == [];
  }

  lemma {:induction false} LeafLinked(m: Fields, n: TNode, par: TNode?, sd: Side)
    requires n in m && m[n].parent == par && m[n].side == sd && m[n].left == null && m[n].right == null
    ensures Linked(m, Node(Nil, n, Nil), par, sd)
  {
    assert Linked(m, Nil, n, Left) && Linked(m, Nil, n, Right);
  }

  lemma {:induction false} HookedLinks(m: Fields, m': Fields, h: TCtx, n: TNode, key: int)
    requires Hooks(m, m', h, n, key) && m.Keys == CtxNodes(h) && Sound(m, h, Nil) && CtxBal(m, h, 0)
    ensures Sound(m', h, Node(Nil, n, Nil)) && CtxBal(m', h, 0)
  {
    LeafFacts(n);
    Refilled(m, m', h, null, n);
    LeafLinked(m', n, h.n, CtxSide(h));
    CtxBalFrame(m, m', h, 0);
  }

  lemma {:induction false} HookedRows(m: Fields, m': Fields, h: TCtx, n: TNode, key: int)
    requires Hooks(m, m', h, n, key) && m.Keys == CtxNodes(h) && Threaded(m, Before(h) + After(h)) && Filled(m)
    ensures Threaded(m', Before(h) + After(h)) && Filled(m')
    ensures Flat(m', Before(h) + [n] + After(h)) == Flat(m, Before(h)) + [key] + Flat(m, After(h))
  {
    CtxRow(h);
    assert forall i :: 0 <= i < |Before(h)| ==> Items(m', Before(h)[i]) == Items(m, Before(h)[i]);
    assert forall i :: 0 <= i < |After(h)| ==> Items(m', After(h)[i]) == Items(m, After(h)[i]);
    FlatFrame(m, m', Before(h));
    FlatFrame(m, m', After(h));
    FlatAround(m', Before(h), n, After(h));
  }

  /** Threading changes only successors. */
  lemma {:induction false} ThreadsKeep(m: Fields, m': Fields, a: seq<TNode>, n: TNode, b: seq<TNode>)
    requires ThreadsIn(m, m', a, n, b) && (a == [] || Last(a) != n)
    ensures m'.Keys == m.Keys && forall x :: x in m ==> m'[x] == m[x].(successor := m'[x].successor)
  {
  }

  ghost predicate OnlyThreads(m: Fields, m': Fields) {
    m'.Keys == m.Keys && forall x :: x in m ==> m'[x] == m[x].(successor := m'[x].successor)
  }

  lemma {:induction false} OnlyThreadsSound(m: Fields, m': Fields, c: TCtx, s: TShape, h: int)
    requires OnlyThreads(m, m') && Sound(m, c, s) && CtxBal(m, c, h)
    ensures Sound(m', c, s) && CtxBal(m', c, h)
  {
    LinkedFrame(m, m', s, CtxParent(c), CtxSide(c));
    CtxLinkedFrame(m, m', c, Root(s));
    BalFrame(m, m', s);
    CtxBalFrame(m, m', c, h);
  }

  lemma {:induction false} OnlyThreadsFlat(m: Fields, m': Fields, q: seq<TNode>)
    requires OnlyThreads(m, m')
    ensures Flat(m', q) == Flat(m, q) && (Filled(m) ==> Filled(m'))
  {
    FlatFrame(m, m', q);
  }

  /** After the new leaf is threaded, the climb may start. */
  lemma {:induction false} ReadyToClimb(m: Fields, m': Fields, h: TCtx, n: TNode)
    requires Sound(m, h, Node(Nil, n, Nil)) && CtxBal(m, h, 0) && Filled(m) && Threaded(m, Before(h) + After(h))
    requires ThreadsIn(m, m', Before(h), n, After(h))
    ensures Climb(m', m', h, Node(Nil, n, Nil), Plug(h, Node(Nil, n, Nil))) && Filled(m')
    ensures Threaded(m', Inorder(Plug(h, Node(Nil, n, Nil))))
    ensures Inorder(Plug(h, Node(Nil, n, Nil))) == Before(h) + [n] + After(h)
    ensures Flat(m', Before(h) + [n] + After(h)) == Flat(m, Before(h) + [n] + After(h))
  {
    var leaf := Node(Nil, n, Nil);
    LeafFacts(n);
    CtxRow(h);
    ThreadsKeep(m, m', Before(h), n, After(h));
    OnlyThreadsSound(m, m', h, leaf, 0);
    OnlyThreadsFlat(m, m', Before(h) + [n] + After(h));
    RowNoDup(h, leaf);
    ThreadInserted(m, m', Before(h), n, After(h));
    PlugInorder(h, leaf);
  }

  lemma {:induction false} TreeFixed(m: Fields, m': Fields, q: seq<TNode>, s: TShape)
    requires Fixed(m, m', q, s) && Threaded(m, q) && Ascending(Flat(m, q)) && Filled(m')
    requires forall i :: 0 <= i < |q| ==> q[i] in m
    requires forall n :: n in m ==> n in q
    ensures Tree(m', s) && Flat(m', Inorder(s)) == Flat(m, q)
  {
    InorderNodes(s);
    assert m'.Keys == Nodes(s);
  }

  lemma {:induction false} MoreWindows(ns: set<TNode>, n: TNode, k: int)
    requires Windows(ns, k) && n.Window(k) && forall x :: x in ns ==> x.keys != n.keys
    ensures Windows(ns + {n}, k)
  {
  }

  /** A node as it comes out of allocation. */
  ghost predicate Blank(n: TNode, key: int)
    reads n
  {
    RecOf(n) == Rec(null, null, null, Undef, 0, null, [key])
  }

  /** Hooks a new node in as the child of `at` on `side`. */
  method Hook(ghost ns: set<TNode>, n: TNode, at: TNode, side: Side, key: int, ghost h: TCtx)
    requires !h.Top? && h.n == at && CtxSide(h) == side && at in ns && n !in ns && Blank(n, key)
    modifies at`left, at`right, n`parent, n`side
    ensures Hooks(old(Snap(ns)), Snap(ns + {n}), h, n, key)
  {
    n.parent := at;
    at.SetChild(side, n);
    n.side := side;
  }

  /** The row of nodes and its keys around a hole. */
  ghost predicate Fits(m: Fields, h: TCtx, key: int) {
    Below(Flat(m, Before(h)), key) && Above(Flat(m, After(h)), key)
  }

  lemma {:induction false} HoleTree(m: Fields, h: TCtx)
    requires Tree(m, Plug(h, Nil))
    ensures m.Keys == CtxNodes(h) && Sound(m, h, Nil) && CtxBal(m, h, 0)
    ensures Threaded(m, Before(h) + After(h))
    ensures Flat(m, Inorder(Plug(h, Nil))) == Flat(m, Before(h)) + Flat(m, After(h))
  {
    hide Linked, Bal, CtxBal, CtxLinked, Disj, CtxDisj, Before, After, Ascending;
    PlugNodes(h, Nil);
    WholeZip(m, h, Nil);
    PlugInorder(h, Nil);
    assert Before(h) + [] + After(h) == Before(h) + After(h);
    FlatAppend(m, Before(h), After(h));
  }

  lemma {:induction false} StaysAscending(a: seq<int>, key: int, b: seq<int>)
    requires Ascending(a + b) && Below(a, key) && Above(b, key)
    ensures Ascending(a + [key] + b)
  {
    var q := a + [key] + b;
    forall i, j | 0 <= i < j < |q| ensures q[i] <= q[j] {
      assert i < |a| ==> (a + b)[i] == q[i];
      assert i > |a| ==> (a + b)[i - 1] == q[i];
      assert j < |a| ==> (a + b)[j] == q[j];
      assert j > |a| ==> (a + b)[j - 1] == q[j];
    }
  }

  /** The leaf `n` is hooked in and threaded; only the balance is not yet restored. */
  ghost predicate Planted(m: Fields, m': Fields, h: TCtx, n: TNode, key: int) {
    var w := Plug(h, Node(Nil, n, Nil));
    && Climb(m', m', h, Node(Nil, n, Nil), w) && Filled(m') && m'.Keys == m.Keys + {n}
    && Threaded(m', Inorder(w)) && Inorder(w) == Before(h) + [n] + After(h)
    && Flat(m', Inorder(w)) == Flat(m, Before(h)) + [key] + Flat(m, After(h))
  }

  lemma {:induction false} PlantedSteps(m0: Fields, m1: Fields, m2: Fields, h: TCtx, n: TNode, key: int)
    requires Tree(m0, Plug(h, Nil)) && Hooks(m0, m1, h, n, key)
    requires ThreadsIn(m1, m2, Before(h), n, After(h))
    ensures Planted(m0, m2, h, n, key)
  {
    HoleTree(m0, h);
    HookedLinks(m0, m1, h, n, key);
    HookedRows(m0, m1, h, n, key);
    ReadyToClimb(m1, m2, h, n);
  }

  lemma {:induction false} Threadable(m0: Fields, m1: Fields, h: TCtx, n: TNode, key: int)
    requires Tree(m0, Plug(h, Nil)) && Hooks(m0, m1, h, n, key)
    ensures Apart(h, Node(Nil, n, Nil)) && Zip(m1, h, Node(Nil, n, Nil)) && Threaded(m1, Before(h) + After(h))
  {
    HoleTree(m0, h);
    HookedLinks(m0, m1, h, n, key);
    HookedRows(m0, m1, h, n, key);
  }

  method Plant(ghost ns: set<TNode>, n: TNode, at: TNode, side: Side, key: int, ghost h: TCtx)
    requires at in ns && n !in ns && Blank(n, key)
    requires !h.Top? && h.n == at && CtxSide(h) == side && Tree(Snap(ns), Plug(h, Nil))
    modifies ns`left, ns`right, ns`successor, n`parent, n`side, n`successor
    ensures Planted(old(Snap(ns)), Snap(ns + {n}), h, n, key)
  {
    ghost var m0 := Snap(ns);
    Hook(ns, n, at, side, key, h);
    ghost var all := ns + {n};
    ghost var m1 := Snap(all);
    Threadable(m0, m1, h, n, key);
    AddSuccessor(all, n, h);
    PlantedSteps(m0, m1, Snap(all), h, n, key);
  }

  method NewNode(ghost ns: set<TNode>, k: int, idx: int, key: int) returns (n: TNode)
    requires Windows(ns, k) && 0 <= idx < k
    ensures fresh(n) && fresh(n.keys) && Blank(n, key) && Windows(ns + {n}, k)
  {
    n := new TNode(k, idx, key);
    MoreWindows(ns, n, k);
  }

  method PlantNew(ghost ns: set<TNode>, k: int, at: TNode, side: Side, idx: int, key: int, ghost h: TCtx)
    returns (n: TNode)
    requires Windows(ns, k) && 0 <= idx < k && at in ns
    requires !h.Top? && h.n == at && CtxSide(h) == side && Tree(Snap(ns), Plug(h, Nil))
    modifies ns`left, ns`right, ns`successor
    ensures fresh(n) && fresh(n.keys) && Windows(ns + {n}, k) && Planted(old(Snap(ns)), Snap(ns + {n}), h, n, key)
  {
    hide Tree, Planted, Windows;
    ghost var m := Snap(ns);
    n := NewNode(ns, k, idx, key);
    assert Snap(ns) == m;
    Plant(ns, n, at, side, key, h);
  }

  lemma {:induction false} PlantedTree(m0: Fields, m2: Fields, m3: Fields, h: TCtx, n: TNode, key: int, s: TShape)
    requires Tree(m0, Plug(h, Nil)) && Fits(m0, h, key) && Planted(m0, m2, h, n, key)
    requires Fixed(m2, m3, Inorder(Plug(h, Node(Nil, n, Nil))), s) && Filled(m3)
    ensures Tree(m3, s) && Flat(m3, Inorder(s)) == Flat(m0, Before(h)) + [key] + Flat(m0, After(h))
  {
    HoleTree(m0, h);
    StaysAscending(Flat(m0, Before(h)), key, Flat(m0, After(h)));
    CtxRow(h);
    TreeFixed(m2, m3, Before(h) + [n] + After(h), s);
  }

  /** A new leaf for `key` in the hole of `h`, with all that follows from it. */
  method GrowLeaf(ghost ns: set<TNode>, k: int, root: TNode, at: TNode, side: Side, idx: int, key: int, ghost h: TCtx)
    returns (n: TNode, root': TNode, ghost s': TShape)
    requires k >= 2 && Windows(ns, k) && 0 <= idx < k && at in ns
    requires !h.Top? && h.n == at && CtxSide(h) == side && Tree(Snap(ns), Plug(h, Nil)) && root == Root(Plug(h, Nil))
    requires Fits(Snap(ns), h, key)
    modifies ns, set n | n in ns :: n.keys
    ensures fresh(n) && fresh(n.keys) && Windows(ns + {n}, k)
    ensures Tree(Snap(ns + {n}), s') && root' == Root(s')
    ensures Flat(Snap(ns + {n}), Inorder(s')) == old(Flat(Snap(ns), Before(h)) + [key] + Flat(Snap(ns), After(h)))
  {
    ghost var m0 := Snap(ns);
    n := PlantNew(ns, k, at, side, idx, key, h);
    ghost var all := ns + {n};
    ghost var m2 := Snap(all);
    PlantedRoot(h, n);
    root', s' := FixupAfterInsertion(all, k, n, root, h, Plug(h, Node(Nil, n, Nil)));
    PlantedTree(m0, m2, Snap(all), h, n, key, s');
  }

  lemma {:induction false} PlantedRoot(h: TCtx, n: TNode)
    requires !h.Top?
    ensures Root(Plug(h, Node(Nil, n, Nil))) == Root(Plug(h, Nil))
  {
    PlugRoot(h.up, Up(h, Nil), Up(h, Node(Nil, n, Nil)));
  }
}
