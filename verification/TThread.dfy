/**
 The successor thread through a T*-tree: each node knows the next one in key
 order (kernel/ds/ttree.c).
 */
module TThread {
  import opened Shapes
  import opened TNodes
  import opened TLinks
  import opened TContent

  ghost function Last(a: seq<TNode>): TNode
    requires a != []
  {
    a[|a| - 1]
  }

  /** `n` points to the first of `b`, the last of `a` points to `n`; no other field changed. */
  ghost predicate ThreadsIn(m: Fields, m': Fields, a: seq<TNode>, n: TNode, b: seq<TNode>) {
    && m'.Keys == m.Keys && n in m && m'[n] == m[n].(successor := Next(b, 0))
    && (a != [] ==> Last(a) in m && m'[Last(a)] == m[Last(a)].(successor := n))
    && forall x :: x in m && x != n && (a == [] || x != Last(a)) ==> m'[x] == m[x]
  }

  lemma {:induction false} ThreadInserted(m: Fields, m': Fields, a: seq<TNode>, n: TNode, b: seq<TNode>)
    requires Threaded(m, a + b) && NoDup(a + [n] + b) && ThreadsIn(m, m', a, n, b)
    ensures Threaded(m', a + [n] + b)
  {
    var q := a + [n] + b;
    forall i | 0 <= i < |q|
      ensures q[i] in m' && m'[q[i]].successor == Next(q, i + 1)
    {
      if i < |a| {
        assert (a + b)[i] == q[i];
        assert i < |a| - 1 ==> q[i] != q[|a| - 1] && q[i] != q[|a|];
        assert i < |a| - 1 ==> (a + b)[i + 1] == q[i + 1];
      } else if i > |a| {
        assert (a + b)[i - 1] == q[i];
        assert q[i] != q[|a|] && (|a| > 0 ==> q[i] != q[|a| - 1]);
        assert i + 1 < |q| ==> (a + b)[i] == q[i + 1];
      }
    }
  }

  /** The last of `a` points to the first of `b`, past `n`; no other field changed. */
  ghost predicate ThreadsOut(m: Fields, m': Fields, a: seq<TNode>, b: seq<TNode>) {
    && m'.Keys == m.Keys
    && (a != [] ==> Last(a) in m && m'[Last(a)] == m[Last(a)].(successor := Next(b, 0)))
    && forall x :: x in m && (a == [] || x != Last(a)) ==> m'[x] == m[x]
  }

  lemma {:induction false} ThreadRemoved(m: Fields, m': Fields, a: seq<TNode>, n: TNode, b: seq<TNode>)
    requires Threaded(m, a + [n] + b) && NoDup(a + [n] + b) && ThreadsOut(m, m', a, b)
    ensures Threaded(m', a + b)
  {
    var q := a + [n] + b;
    forall i | 0 <= i < |a + b|
      ensures (a + b)[i] in m' && m'[(a + b)[i]].successor == Next(a + b, i + 1)
    {
      if i < |a| {
        assert (a + b)[i] == q[i];
        assert i < |a| - 1 ==> q[i] != q[|a| - 1];
        assert i < |a| - 1 ==> (a + b)[i + 1] == q[i + 1];
      } else {
        assert (a + b)[i] == q[i + 1];
        assert |a| > 0 ==> q[i + 1] != q[|a| - 1];
        assert i + 1 < |a + b| ==> (a + b)[i + 1] == q[i + 2];
      }
    }
  }

  lemma {:induction false} CtxRow(c: TCtx)
    ensures forall i :: 0 <= i < |Before(c)| ==> Before(c)[i] in CtxNodes(c)
    ensures forall i :: 0 <= i < |After(c)| ==> After(c)[i] in CtxNodes(c)
    ensures forall n :: n in CtxNodes(c) ==> n in Before(c) || n in After(c)
  {
    match c
    case Top =>
    case InLeft(up, n, r) =>
      CtxRow(up);
      InorderNodes(r);
    case InRight(l, n, up) =>
      CtxRow(up);
      InorderNodes(l);
  }

  /** Among the surroundings of a hole, only the predecessor of the hole has `was` as its successor. */
  ghost predicate OnlyPred(m: Fields, c: TCtx, was: TNode) {
    forall x :: x in CtxNodes(c) ==>
      x in m && (m[x].successor == was <==> Before(c) != [] && x == Last(Before(c)))
  }

  lemma {:induction false} ThreadUnique(m: Fields, q: seq<TNode>, j: int)
    requires Threaded(m, q) && NoDup(q) && 0 <= j < |q|
    ensures forall i :: 0 <= i < |q| ==> q[i] in m && (m[q[i]].successor == q[j] <==> i + 1 == j)
  {
  }

  /** Seen from a hole right before `was` in the row. */
  lemma {:induction false} OnlyPredBefore(m: Fields, c: TCtx, was: TNode, rest: seq<TNode>)
    requires Threaded(m, Before(c) + [was] + rest) && NoDup(Before(c) + [was] + rest)
    requires forall i :: 0 <= i < |After(c)| ==> After(c)[i] in rest
    ensures OnlyPred(m, c, was)
  {
    var a := Before(c);
    var q := a + [was] + rest;
    ThreadUnique(m, q, |a|);
    CtxRow(c);
    forall x | x in CtxNodes(c)
      ensures x in m && (m[x].successor == was <==> a != [] && x == Last(a))
    {
      if x in a {
        var i :| 0 <= i < |a| && a[i] == x;
        assert q[i] == x;
        assert a != [] ==> q[|a| - 1] == Last(a);
      } else {
        var i :| 0 <= i < |After(c)| && After(c)[i] == x;
        var k :| 0 <= k < |rest| && rest[k] == x;
        assert q[|a| + 1 + k] == x;
        assert a != [] ==> q[|a| - 1] == Last(a);
      }
    }
  }

  ghost function WithSucc(m: Fields, n: TNode, v: TNode?): Fields
    requires n in m
  {
    m[n := m[n].(successor := v)]
  }

  method SetSuccessor(ghost ns: set<TNode>, n: TNode, v: TNode?)
    requires n in ns
    modifies n`successor
    ensures Snap(ns) == WithSucc(old(Snap(ns)), n, v)
  {
    n.successor := v;
  }

  /** Climbs from the hole and redirects the one thread that leads to `was`, if there is one. */
  method Redirect(ghost ns: set<TNode>, start: TNode?, was: TNode, now: TNode, ghost c: TCtx, ghost child: TNode?)
    requires CtxDisj(c) && CtxLinked(Snap(ns), c, child) && start == CtxParent(c) && OnlyPred(Snap(ns), c, was)
    modifies ns`successor
    ensures Before(c) == [] ==> Snap(ns) == old(Snap(ns))
    ensures Before(c) != [] ==>
      Last(Before(c)) in old(Snap(ns)) && Snap(ns) == WithSucc(old(Snap(ns)), Last(Before(c)), now)
  {
    var node := start;
    ghost var cc, ch := c, child;
    CtxRow(c);
    while node != null
      invariant CtxDisj(cc) && CtxLinked(Snap(ns), cc, ch) && node == CtxParent(cc)
      invariant Before(cc) == Before(c) && CtxNodes(cc) <= CtxNodes(c)
      invariant Snap(ns) == old(Snap(ns))
      decreases cc
    {
      assert node in CtxNodes(cc) && node in ns;
      CtxRow(cc.up);
      if node.successor == was {
        SetSuccessor(ns, node, now);
        return;
      }
      node := node.parent;
      cc, ch := cc.up, cc.n;
    }
  }

  lemma {:induction false} RowNoDup(c: TCtx, s: TShape)
    requires Apart(c, s)
    ensures NoDup(Before(c) + Inorder(s) + After(c))
  {
    PlugDisj(c, s);
    PlugInorder(c, s);
    DisjNoDup(Plug(c, s));
  }

  /** What the climb of a new left child needs: the hole of its parent `p` lies right before `p`. */
  lemma {:induction false} OnlyPredLeft(m: Fields, c: TCtx, n: TNode)
    requires c.InLeft? && Apart(c, Node(Nil, n, Nil)) && Threaded(m, Before(c) + After(c))
    ensures OnlyPred(m, c.up, c.n)
  {
    var rest := Inorder(c.r) + After(c.up);
    RowNoDup(c, Node(Nil, n, Nil));
    var q := Before(c) + [n] + After(c);
    assert Inorder(Node(Nil, n, Nil)) == [n];
    assert After(c) == [c.n] + rest;
    assert Before(c) + After(c) == Before(c.up) + [c.n] + rest;
    assert NoDup(Before(c.up) + [c.n] + rest) by {
      var r := Before(c.up) + [c.n] + rest;
      forall i, j | 0 <= i < j < |r| ensures r[i] != r[j] {
        assert r[i] == q[if i < |Before(c)| then i else i + 1];
        assert r[j] == q[if j < |Before(c)| then j else j + 1];
      }
    }
    forall i | 0 <= i < |After(c.up)| ensures After(c.up)[i] in rest {
      assert rest[|Inorder(c.r)| + i] == After(c.up)[i];
    }
    OnlyPredBefore(m, c.up, c.n, rest);
  }

  /** A new right child takes its place between its parent and the parent's successor. */
  method AddRight(ghost ns: set<TNode>, n: TNode, ghost c: TCtx)
    requires c.InRight? && n in ns && c.n in ns && n != c.n && n.parent == c.n
    requires Threaded(Snap(ns), Before(c) + After(c))
    modifies ns`successor
    ensures ThreadsIn(old(Snap(ns)), Snap(ns), Before(c), n, After(c))
  {
    assert Last(Before(c)) == c.n == (Before(c) + After(c))[|Before(c)| - 1];
    assert After(c) != [] ==> (Before(c) + After(c))[|Before(c)|] == After(c)[0];
    hide Before, After;
    SetSuccessor(ns, n, n.parent.successor);
    SetSuccessor(ns, n.parent, n);
  }

  /** Puts a new leaf, already hung at `c`, on the thread. */
  method AddSuccessor(ghost ns: set<TNode>, n: TNode, ghost c: TCtx)
    requires !c.Top? && n in ns && Apart(c, Node(Nil, n, Nil)) && Zip(Snap(ns), c, Node(Nil, n, Nil))
    requires Threaded(Snap(ns), Before(c) + After(c))
    modifies ns`successor
    ensures ThreadsIn(old(Snap(ns)), Snap(ns), Before(c), n, After(c))
  {
    ghost var m := Snap(ns);
    CtxRow(c);
    assert c.n in CtxNodes(c) && n in Nodes(Node(Nil, n, Nil));
    if n.side == Right {
      AddRight(ns, n, c);
    } else {
      OnlyPredLeft(m, c, n);
      SetSuccessor(ns, n, n.parent);
      CtxLinkedFrame(m, Snap(ns), c.up, c.n);
      assert !c.up.Top? ==> c.up.n in CtxNodes(c.up);
      if n.parent.side == Right {
        SetSuccessor(ns, n.parent.parent, n);
      } else if n.parent.side == Left {
        Redirect(ns, n.parent.parent, n.parent, n, c.up, c.n);
      }
    }
  }

  /** Takes a leaf, already unhooked from its parent, off the thread. */
  method RemoveSuccessor(ghost ns: set<TNode>, n: TNode, ghost c: TCtx)
    requires !c.Top? && n in ns && Apart(c, Node(Nil, n, Nil)) && CtxLinked(Snap(ns), c, null)
    requires n.parent == c.n && n.side == CtxSide(c)
    requires Threaded(Snap(ns), Before(c) + [n] + After(c))
    modifies ns`successor
    ensures ThreadsOut(old(Snap(ns)), Snap(ns), Before(c), After(c))
  {
    ghost var m, q := Snap(ns), Before(c) + [n] + After(c);
    CtxRow(c);
    RowNoDup(c, Node(Nil, n, Nil));
    assert Inorder(Node(Nil, n, Nil)) == [n];
    assert c.n in CtxNodes(c) && (!c.up.Top? ==> c.up.n in CtxNodes(c.up));
    assert q[|Before(c)|] == n && (After(c) != [] ==> q[|Before(c)| + 1] == After(c)[0]);
    if n.side == Right {
      SetSuccessor(ns, n.parent, n.successor);
    } else if n.parent.side == Right {
      SetSuccessor(ns, n.parent.parent, n.parent);
    } else {
      OnlyPredBefore(m, c, n, After(c));
      Redirect(ns, n.parent, n, n.parent, c, null);
    }
  }
}
