/**
 Coloured tree shapes with a focus, and the fields that spell them out.
 Left and right halves of the source are one case here, told apart by a direction.
 */
module RbShapes {
  import opened RbNodes

  datatype Tree = Leaf | Fork(red: bool, l: Tree, n: RbNode, r: Tree)

  /** The surroundings of a subtree, which hangs in direction `d` of `n`; `sib` is its sibling. */
  datatype Zip = Top | In(d: bool, red: bool, n: RbNode, sib: Tree, up: Zip)

  ghost function Mk(d: bool, red: bool, near: Tree, n: RbNode, far: Tree): Tree {
    if d then Fork(red, near, n, far) else Fork(red, far, n, near)
  }

  ghost function Root(t: Tree): RbNode? { if t.Leaf? then null else t.n }

  ghost function Nodes(t: Tree): set<RbNode> {
    if t.Leaf? then {} else Nodes(t.l) + {t.n} + Nodes(t.r)
  }

  ghost function Inorder(t: Tree): seq<RbNode> {
    if t.Leaf? then [] else Inorder(t.l) + [t.n] + Inorder(t.r)
  }

  ghost predicate Disj(t: Tree) {
    t.Fork? ==> Disj(t.l) && Disj(t.r) && t.n !in Nodes(t.l) && t.n !in Nodes(t.r) && Nodes(t.l) !! Nodes(t.r)
  }

  ghost function Plug(z: Zip, t: Tree): Tree
    decreases z
  {
    if z.Top? then t else Plug(z.up, Mk(z.d, z.red, t, z.n, z.sib))
  }

  ghost function ZNodes(z: Zip): set<RbNode> {
    if z.Top? then {} else ZNodes(z.up) + {z.n} + Nodes(z.sib)
  }

  ghost predicate ZDisj(z: Zip) {
    z.In? ==>
      && ZDisj(z.up) && Disj(z.sib)
      && z.n !in ZNodes(z.up) && z.n !in Nodes(z.sib) && Nodes(z.sib) !! ZNodes(z.up)
  }

  ghost function Before(z: Zip): seq<RbNode> {
    if z.Top? then [] else if z.d then Before(z.up) else Before(z.up) + Inorder(z.sib) + [z.n]
  }

  ghost function After(z: Zip): seq<RbNode> {
    if z.Top? then [] else if z.d then [z.n] + Inorder(z.sib) + After(z.up) else After(z.up)
  }

  ghost function Depth(z: Zip): nat { if z.Top? then 0 else 1 + Depth(z.up) }

  ghost function ZParent(z: Zip): RbNode? { if z.Top? then null else z.n }

  /** The root of the whole tree when `child` is the root of the subtree in focus. */
  ghost function ZRoot(z: Zip, child: RbNode?): RbNode?
    decreases z
  {
    if z.Top? then child else ZRoot(z.up, z.n)
  }

  lemma {:induction false} PlugRoot(z: Zip, t: Tree)
    ensures Root(Plug(z, t)) == ZRoot(z, Root(t))
    decreases z
  {
    if z.In? { PlugRoot(z.up, Mk(z.d, z.red, t, z.n, z.sib)); }
  }

  lemma {:induction false} PlugInorder(z: Zip, t: Tree)
    ensures Inorder(Plug(z, t)) == Before(z) + Inorder(t) + After(z)
    decreases z
  {
    if z.In? {
      PlugInorder(z.up, Mk(z.d, z.red, t, z.n, z.sib));
      InorderUp(Before(z.up), Inorder(t), [z.n], Inorder(z.sib), After(z.up));
    }
  }

  lemma {:induction false} InorderUp<T>(b: seq<T>, t: seq<T>, n: seq<T>, s: seq<T>, a: seq<T>)
    ensures b + (t + n + s) + a == b + t + (n + s + a)
    ensures b + (s + n + t) + a == (b + s + n) + t + a
  {
  }

  /** The same row of nodes in two trees that differ at the focus only. */
  lemma {:induction false} PlugSame(z: Zip, t: Tree, t': Tree)
    requires Inorder(t) == Inorder(t')
    ensures Inorder(Plug(z, t)) == Inorder(Plug(z, t'))
  {
    hide Inorder, Plug;
    PlugInorder(z, t);
    PlugInorder(z, t');
  }

  lemma {:induction false} TurnInorder(d: bool, p: bool, q: bool, a: Tree, x: RbNode, b: Tree, y: RbNode, e: Tree,
        p': bool, q': bool)
    ensures Inorder(Mk(d, p, a, x, Mk(d, q, b, y, e))) == Inorder(Mk(d, q', Mk(d, p', a, x, b), y, e))
  {
    var i, j, k := Inorder(a), Inorder(b), Inorder(e);
    if d {
      assert Inorder(Mk(d, q, b, y, e)) == j + [y] + k && Inorder(Mk(d, p', a, x, b)) == i + [x] + j;
      assert i + [x] + (j + [y] + k) == i + [x] + j + [y] + k;
    } else {
      assert Inorder(Mk(d, q, b, y, e)) == k + [y] + j && Inorder(Mk(d, p', a, x, b)) == j + [x] + i;
      assert k + [y] + (j + [x] + i) == k + [y] + j + [x] + i;
    }
  }

  /** Every node's fields agree with the subtree below it; the root's parent is `par`. */
  ghost predicate Linked(m: Fields, t: Tree, par: RbNode?) {
    t.Fork? ==>
      && t.n in m && m[t.n] == Rec(par, Root(t.l), Root(t.r), t.red)
      && Linked(m, t.l, t.n) && Linked(m, t.r, t.n)
  }

  ghost predicate ZLinked(m: Fields, z: Zip, child: RbNode?) {
    z.In? ==>
      && z.n in m && m[z.n] == MkRec(z.d, ZParent(z.up), child, Root(z.sib), z.red)
      && Linked(m, z.sib, z.n) && ZLinked(m, z.up, z.n)
  }

  /** The fields `m` spell out the tree `Plug(z, t)`; every node sits in one place. */
  ghost predicate Focus(m: Fields, z: Zip, t: Tree) {
    && ZLinked(m, z, Root(t)) && Linked(m, t, ZParent(z))
    && ZDisj(z) && Disj(t) && Nodes(t) !! ZNodes(z) && m.Keys == Nodes(t) + ZNodes(z)
  }

  lemma {:induction false} FocusUp(m: Fields, z: Zip, t: Tree)
    requires z.In?
    ensures Focus(m, z, t) <==> Focus(m, z.up, Mk(z.d, z.red, t, z.n, z.sib))
  {
    var u := Mk(z.d, z.red, t, z.n, z.sib);
    assert Nodes(u) == Nodes(t) + {z.n} + Nodes(z.sib);
    assert Nodes(u) + ZNodes(z.up) == Nodes(t) + ZNodes(z);
  }

  lemma {:induction false} FocusDown(m: Fields, z: Zip, d: bool, red: bool, t: Tree, n: RbNode, sib: Tree)
    ensures Focus(m, z, Mk(d, red, t, n, sib)) <==> Focus(m, In(d, red, n, sib, z), t)
  {
    FocusUp(m, In(d, red, n, sib, z), t);
  }

  lemma {:induction false} FocusWhole(m: Fields, z: Zip, t: Tree)
    ensures Focus(m, z, t) <==> Focus(m, Top, Plug(z, t))
    decreases z
  {
    if z.In? {
      hide Focus;
      FocusUp(m, z, t);
      FocusWhole(m, z.up, Mk(z.d, z.red, t, z.n, z.sib));
    }
  }

  lemma {:induction false} Mirror(d: bool, red: bool, t: Tree, n: RbNode, sib: Tree)
    ensures Mk(d, red, t, n, sib) == Mk(!d, red, sib, n, t)
  {
  }

  lemma {:induction false} LinkedFrame(m: Fields, m': Fields, t: Tree, par: RbNode?)
    requires Linked(m, t, par) && forall n :: n in Nodes(t) ==> n in m && n in m' && m'[n] == m[n]
    ensures Linked(m', t, par)
  {
    if t.Fork? {
      assert t.n in Nodes(t);
      LinkedFrame(m, m', t.l, t.n);
      LinkedFrame(m, m', t.r, t.n);
    }
  }

  lemma {:induction false} ZLinkedFrame(m: Fields, m': Fields, z: Zip, child: RbNode?)
    requires ZLinked(m, z, child) && forall n :: n in ZNodes(z) ==> n in m && n in m' && m'[n] == m[n]
    ensures ZLinked(m', z, child)
  {
    if z.In? {
      assert z.n in ZNodes(z);
      LinkedFrame(m, m', z.sib, z.n);
      ZLinkedFrame(m, m', z.up, z.n);
    }
  }

  /** Only the parent field of the root of `t` has changed. */
  ghost predicate Rehung(m: Fields, m': Fields, t: Tree, par: RbNode?) {
    t.Fork? ==>
      && t.n in m && t.n in m' && m'[t.n] == m[t.n].(parent := par)
      && forall n :: n in Nodes(t) && n != t.n ==> n in m && n in m' && m'[n] == m[n]
  }

  lemma {:induction false} LinkedRehung(m: Fields, m': Fields, t: Tree, par: RbNode?, par': RbNode?)
    requires Linked(m, t, par) && Disj(t) && Rehung(m, m', t, par')
    ensures Linked(m', t, par')
  {
    if t.Fork? {
      LinkedFrame(m, m', t.l, t.n);
      LinkedFrame(m, m', t.r, t.n);
    }
  }

  /** Only the child pointer at the focus has changed. */
  ghost predicate ZRehung(m: Fields, m': Fields, z: Zip, child: RbNode?) {
    z.In? ==>
      && z.n in m && z.n in m' && m'[z.n] == WithChild(m[z.n], z.d, child)
      && forall n :: n in ZNodes(z) && n != z.n ==> n in m && n in m' && m'[n] == m[n]
  }

  lemma {:induction false} ZLinkedRehung(m: Fields, m': Fields, z: Zip, child: RbNode?, child': RbNode?)
    requires ZLinked(m, z, child) && ZDisj(z) && ZRehung(m, m', z, child')
    ensures ZLinked(m', z, child')
  {
    if z.In? {
      LinkedFrame(m, m', z.sib, z.n);
      ZLinkedFrame(m, m', z.up, z.n);
    }
  }

  /** Another colour for the root of the focus. */
  lemma {:induction false} Painted(m: Fields, m': Fields, z: Zip, t: Tree, c: bool)
    requires Focus(m, z, t) && t.Fork? && t.n in m && m' == m[t.n := m[t.n].(red := c)]
    ensures Focus(m', z, t.(red := c))
  {
    LinkedFrame(m, m', t.l, t.n);
    LinkedFrame(m, m', t.r, t.n);
    ZLinkedFrame(m, m', z, t.n);
    assert Nodes(t.(red := c)) == Nodes(t);
  }

  /** `p`'s child `x` was replaced by `y`; no `p`, nothing changed. */
  ghost predicate Swapped(m: Fields, m': Fields, z: Zip, y: RbNode?) {
    z.In? ==> z.n in m && z.n in m' && m'[z.n] == WithChild(m[z.n], z.d, y)
  }

  /** The fields after `x`'s far child `y` was lifted above it. */
  ghost predicate Turns(m: Fields, m': Fields, z: Zip, d: bool, x: RbNode, b: Tree, y: RbNode) {
    && m'.Keys == m.Keys && x in m && y in m
    && m'[x] == WithChild(m[x].(parent := y), !d, Root(b))
    && m'[y] == WithChild(m[y].(parent := ZParent(z)), d, x)
    && (b.Fork? ==> b.n in m && m'[b.n] == m[b.n].(parent := x))
    && Swapped(m, m', z, y)
    && forall n :: n in m && n != x && n != y && n != Root(b) && n != ZParent(z) ==> m'[n] == m[n]
  }

  lemma {:induction false} TurnApart(d: bool, p: bool, q: bool, a: Tree, x: RbNode, b: Tree, y: RbNode, e: Tree)
    ensures var t, t' := Mk(d, p, a, x, Mk(d, q, b, y, e)), Mk(d, q, Mk(d, p, a, x, b), y, e);
      && Nodes(t) == Nodes(t') && (Disj(t) <==> Disj(t'))
      && (Disj(t) ==> x != y && x !in Nodes(a) + Nodes(b) + Nodes(e) && y !in Nodes(a) + Nodes(b) + Nodes(e))
      && (Disj(t) ==>
        Disj(a) && Disj(b) && Disj(e) && Nodes(a) !! Nodes(b) && Nodes(a) !! Nodes(e) && Nodes(b) !! Nodes(e))
      && Nodes(t) == Nodes(a) + Nodes(b) + Nodes(e) + {x, y}
  {
    hide Nodes, Disj, Mk;
    var u, v := Mk(d, q, b, y, e), Mk(d, p, a, x, b);
    MkApart(d, q, b, y, e);
    MkApart(d, p, a, x, b);
    MkApart(d, p, a, x, u);
    MkApart(d, q, v, y, e);
  }

  lemma {:induction false} MkApart(d: bool, red: bool, near: Tree, n: RbNode, far: Tree)
    ensures var t := Mk(d, red, near, n, far);
      && Nodes(t) == Nodes(near) + {n} + Nodes(far)
      && (Disj(t) <==> Disj(near) && Disj(far) && n !in Nodes(near) && n !in Nodes(far) && Nodes(near) !! Nodes(far))
  {
  }

  lemma {:induction false} MkLinked(m: Fields, d: bool, red: bool, near: Tree, n: RbNode, far: Tree, par: RbNode?)
    ensures Root(Mk(d, red, near, n, far)) == n
    ensures Linked(m, Mk(d, red, near, n, far), par) <==>
      n in m && m[n] == MkRec(d, par, Root(near), Root(far), red) && Linked(m, near, n) && Linked(m, far, n)
  {
  }

  lemma {:induction false} TurnLinked(m: Fields, d: bool, p: bool, q: bool, a: Tree, x: RbNode, b: Tree, y: RbNode,
        e: Tree, par: RbNode?)
    ensures Linked(m, Mk(d, p, a, x, Mk(d, q, b, y, e)), par) <==>
      && x in m && m[x] == MkRec(d, par, Root(a), y, p) && Linked(m, a, x)
      && y in m && m[y] == MkRec(d, x, Root(b), Root(e), q) && Linked(m, b, y) && Linked(m, e, y)
    ensures Linked(m, Mk(d, q, Mk(d, p, a, x, b), y, e), par) <==>
      && y in m && m[y] == MkRec(d, par, x, Root(e), q) && Linked(m, e, y)
      && x in m && m[x] == MkRec(d, y, Root(a), Root(b), p) && Linked(m, a, x) && Linked(m, b, x)
  {
    hide Linked, Mk, MkRec, Root;
    var u, v := Mk(d, q, b, y, e), Mk(d, p, a, x, b);
    MkLinked(m, d, q, b, y, e, x);
    MkLinked(m, d, p, a, x, b, y);
    MkLinked(m, d, p, a, x, u, par);
    MkLinked(m, d, q, v, y, e, par);
  }

  lemma {:induction false} Turned(m: Fields, m': Fields, z: Zip, d: bool, p: bool, q: bool, a: Tree, x: RbNode,
        b: Tree, y: RbNode, e: Tree)
    requires Focus(m, z, Mk(d, p, a, x, Mk(d, q, b, y, e))) && Turns(m, m', z, d, x, b, y)
    ensures Focus(m', z, Mk(d, q, Mk(d, p, a, x, b), y, e))
  {
    hide Linked, Disj, Nodes, ZLinked, ZDisj, ZNodes;
    TurnApart(d, p, q, a, x, b, y, e);
    TurnLinked(m, d, p, q, a, x, b, y, e, ZParent(z));
    TurnLinked(m', d, p, q, a, x, b, y, e, ZParent(z));
    TurnSides(m, m', z, d, p, q, a, x, b, y, e);
  }

  lemma {:induction false} TurnSides(m: Fields, m': Fields, z: Zip, d: bool, p: bool, q: bool, a: Tree, x: RbNode,
        b: Tree, y: RbNode, e: Tree)
    requires Focus(m, z, Mk(d, p, a, x, Mk(d, q, b, y, e))) && Turns(m, m', z, d, x, b, y)
    ensures Linked(m', a, x) && Linked(m', b, x) && Linked(m', e, y) && ZLinked(m', z, y)
  {
    hide Linked, Disj, ZLinked, ZDisj, Mk, MkRec, Nodes, ZNodes, WithChild;
    TurnApart(d, p, q, a, x, b, y, e);
    TurnLinked(m, d, p, q, a, x, b, y, e, ZParent(z));
    RootIn(b);
    ParentIn(z);
    MkLinked(m, d, p, a, x, Mk(d, q, b, y, e), ZParent(z));
    LinkedFrame(m, m', a, x);
    LinkedFrame(m, m', e, y);
    LinkedRehung(m, m', b, y, x);
    ZLinkedRehung(m, m', z, x, y);
  }

  lemma {:induction false} RootIn(t: Tree)
    ensures t.Fork? ==> t.n in Nodes(t)
  {
  }

  lemma {:induction false} ParentIn(z: Zip)
    ensures z.In? ==> z.n in ZNodes(z)
  {
  }
}
