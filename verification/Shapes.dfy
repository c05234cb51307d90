/**
 Binary tree shapes and their one-hole contexts, shared by the two linked trees
 (the T*-tree and the red-black tree).  A shape only says which node sits where;
 the pointer fields of the nodes are tied to it by the modules that own the nodes.
 */
module Shapes {

  datatype Shape<N> = Nil | Node(l: Shape<N>, n: N, r: Shape<N>)

  /** What surrounds a subtree, read from the subtree upwards. */
  datatype Ctx<N> =
    | Top
    | InLeft(up: Ctx<N>, n: N, r: Shape<N>)
    | InRight(l: Shape<N>, n: N, up: Ctx<N>)

  ghost function Nodes<N>(s: Shape<N>): set<N> {
    if s.Nil? then {} else Nodes(s.l) + {s.n} + Nodes(s.r)
  }

  ghost function Inorder<N>(s: Shape<N>): seq<N> {
    if s.Nil? then [] else Inorder(s.l) + [s.n] + Inorder(s.r)
  }

  /** Every node occurs in one place only. */
  ghost predicate Disj<N>(s: Shape<N>) {
    s.Node? ==>
      && Disj(s.l) && Disj(s.r)
      && s.n !in Nodes(s.l) && s.n !in Nodes(s.r)
      && Nodes(s.l) !! Nodes(s.r)
  }

  ghost function Height<N>(s: Shape<N>): nat {
    if s.Nil? then 0
    else if Height(s.l) > Height(s.r) then 1 + Height(s.l) else 1 + Height(s.r)
  }

  ghost function Plug<N>(c: Ctx<N>, s: Shape<N>): Shape<N>
    decreases c
  {
    match c
    case Top => s
    case InLeft(up, n, r) => Plug(up, Node(s, n, r))
    case InRight(l, n, up) => Plug(up, Node(l, n, s))
  }

  ghost function CtxNodes<N>(c: Ctx<N>): set<N> {
    match c
    case Top => {}
    case InLeft(up, n, r) => CtxNodes(up) + {n} + Nodes(r)
    case InRight(l, n, up) => CtxNodes(up) + {n} + Nodes(l)
  }

  /** The nodes that come before the hole in key order. */
  ghost function Before<N>(c: Ctx<N>): seq<N> {
    match c
    case Top => []
    case InLeft(up, n, r) => Before(up)
    case InRight(l, n, up) => Before(up) + Inorder(l) + [n]
  }

  /** The nodes that come after the hole in key order. */
  ghost function After<N>(c: Ctx<N>): seq<N> {
    match c
    case Top => []
    case InLeft(up, n, r) => [n] + Inorder(r) + After(up)
    case InRight(l, n, up) => After(up)
  }

  ghost predicate CtxDisj<N>(c: Ctx<N>) {
    match c
    case Top => true
    case InLeft(up, n, r) =>
      CtxDisj(up) && Disj(r) && n !in CtxNodes(up) && n !in Nodes(r) && Nodes(r) !! CtxNodes(up)
    case InRight(l, n, up) =>
      CtxDisj(up) && Disj(l) && n !in CtxNodes(up) && n !in Nodes(l) && Nodes(l) !! CtxNodes(up)
  }

  lemma Regroup<T>(a: seq<T>, b: seq<T>, c: seq<T>, d: seq<T>, e: seq<T>)
    ensures a + (b + c + d) + e == a + b + (c + d + e)
  {
  }

  lemma Regroup'<T>(a: seq<T>, b: seq<T>, c: seq<T>, d: seq<T>, e: seq<T>)
    ensures a + (b + c + d) + e == a + b + c + d + e
  {
  }

  lemma Group<T>(a: seq<T>, b: seq<T>, c: seq<T>, d: seq<T>)
    ensures a + b + c + d == a + (b + c) + d
  {
  }

  lemma {:induction false} PlugInorder<N>(c: Ctx<N>, s: Shape<N>)
    ensures Inorder(Plug(c, s)) == Before(c) + Inorder(s) + After(c)
    decreases c
  {
    match c
    case Top =>
    case InLeft(up, n, r) =>
      PlugInorder(up, Node(s, n, r));
      Regroup(Before(up), Inorder(s), [n], Inorder(r), After(up));
    case InRight(l, n, up) =>
      PlugInorder(up, Node(l, n, s));
      Regroup'(Before(up), Inorder(l), [n], Inorder(s), After(up));
  }

  lemma {:induction false} PlugNodes<N>(c: Ctx<N>, s: Shape<N>)
    ensures Nodes(Plug(c, s)) == CtxNodes(c) + Nodes(s)
    decreases c
  {
    match c
    case Top =>
    case InLeft(up, n, r) =>
      PlugNodes(up, Node(s, n, r));
    case InRight(l, n, up) =>
      PlugNodes(up, Node(l, n, s));
  }

  lemma {:induction false} PlugDisj<N>(c: Ctx<N>, s: Shape<N>)
    ensures Disj(Plug(c, s)) <==> CtxDisj(c) && Disj(s) && Nodes(s) !! CtxNodes(c)
    decreases c
  {
    match c
    case Top =>
    case InLeft(up, n, r) =>
      PlugDisj(up, Node(s, n, r));
    case InRight(l, n, up) =>
      PlugDisj(up, Node(l, n, s));
  }

  lemma {:induction false} InorderNodes<N>(s: Shape<N>)
    ensures forall i :: 0 <= i < |Inorder(s)| ==> Inorder(s)[i] in Nodes(s)
    ensures forall n :: n in Nodes(s) ==> n in Inorder(s)
  {
    if s.Node? {
      InorderNodes(s.l);
      InorderNodes(s.r);
    }
  }

  ghost predicate NoDup<N>(q: seq<N>) {
    forall i, j :: 0 <= i < j < |q| ==> q[i] != q[j]
  }

  lemma {:induction false} DisjNoDup<N>(s: Shape<N>)
    requires Disj(s)
    ensures NoDup(Inorder(s))
  {
    if s.Node? {
      DisjNoDup(s.l);
      DisjNoDup(s.r);
      InorderNodes(s.l);
      InorderNodes(s.r);
    }
  }

  /** Two ways to hang three subtrees on two nodes: same nodes, same order. */
  lemma {:induction false} Reassociate<N>(a: Shape<N>, x: N, b: Shape<N>, y: N, d: Shape<N>)
    ensures Nodes(Node(Node(a, x, b), y, d)) == Nodes(Node(a, x, Node(b, y, d)))
    ensures Inorder(Node(Node(a, x, b), y, d)) == Inorder(Node(a, x, Node(b, y, d)))
    ensures Disj(Node(Node(a, x, b), y, d)) <==> Disj(Node(a, x, Node(b, y, d)))
  {
    var p, q := Node(a, x, b), Node(b, y, d);
    assert Nodes(p) == Nodes(a) + {x} + Nodes(b) && Nodes(q) == Nodes(b) + {y} + Nodes(d);
    assert Disj(p) <==> Disj(a) && Disj(b) && x !in Nodes(a) && x !in Nodes(b) && Nodes(a) !! Nodes(b);
    assert Disj(q) <==> Disj(b) && Disj(d) && y !in Nodes(b) && y !in Nodes(d) && Nodes(b) !! Nodes(d);
    assert Inorder(p) == Inorder(a) + [x] + Inorder(b) && Inorder(q) == Inorder(b) + [y] + Inorder(d);
    assert Inorder(a) + [x] + Inorder(b) + [y] + Inorder(d) == Inorder(a) + [x] + (Inorder(b) + [y] + Inorder(d));
  }

  lemma {:induction false} Parts<N>(s: Shape<N>)
    requires s.Node? && Disj(s)
    ensures Disj(s.l) && Disj(s.r) && s.n !in Nodes(s.l) && s.n !in Nodes(s.r) && Nodes(s.l) !! Nodes(s.r)
    ensures s.n in Nodes(s) && Nodes(s.l) <= Nodes(s) && Nodes(s.r) <= Nodes(s)
  {
  }
}
