/**
 Rotations of a T*-tree, with the recomputed balance factors (kernel/ds/ttree.c).
 */
module TRotate {
  import opened TNodes
  import opened TLinks

  function SideBfc(s: Side): int
    requires s != Undef
  {
    if s == Left then -1 else 1
  }

  function IsInternal(left: TNode?, right: TNode?): bool { left != null && right != null }

  function CountBfc(left: TNode?, right: TNode?): int {
    (if right != null then 1 else 0) - (if left != null then 1 else 0)
  }

  /** `p`, its child `s` on `side`, the inner child and the parent are distinct nodes of the tree. */
  ghost predicate Pivots(m: Fields, p: TNode, side: Side, s: TNode, inner: TNode?, par: TNode?)
    requires side != Undef
  {
    && p in m && s in m && (inner != null ==> inner in m) && (par != null ==> par in m)
    && Child(m[p], side) == s && Child(m[s], Opposite(side)) == inner && m[p].parent == par
    && p != s && p != inner && s != inner && par != p && par != s && (par != null ==> par != inner)
  }

  ghost function OptSet(n: TNode?): set<TNode> { if n == null then {} else {n} }

  /** The pointer part of a rotation, field by field. */
  method RotatePointers(p: TNode, side: Side, ghost s: TNode, ghost m: TNode?, ghost par: TNode?) returns (t: TNode)
    requires side != Undef
    requires p.Child(side) == s && s.Child(Opposite(side)) == m && p.parent == par
    requires p != s && p != m && s != m && par != p && par != s && (par != null ==> par != m)
    modifies p`parent, p`side, p`left, p`right, s`parent, s`side, s`left, s`right
    modifies OptSet(m)`parent, OptSet(m)`side, OptSet(par)`left, OptSet(par)`right
    ensures t == s
    ensures p.Child(side) == m && p.Child(Opposite(side)) == old(p.Child(Opposite(side)))
    ensures p.parent == s && p.side == Opposite(side)
    ensures s.Child(Opposite(side)) == p && s.Child(side) == old(s.Child(side))
    ensures s.parent == par && s.side == old(p.side)
    ensures m != null ==> m.parent == p && m.side == side
    ensures par != null ==>
      var at := if old(par.Child(side)) == p then side else Opposite(side);
      par.Child(at) == s && par.Child(Opposite(at)) == old(par.Child(Opposite(at)))
  {
    var opside := Opposite(side);
    t := p.Child(side);
    t.side := p.side;
    p.SetChild(side, t.Child(opside));
    t.SetChild(opside, p);
    p.side := opside;
    t.parent := p.parent;
    p.parent := t;
    if p.Child(side) != null {
      p.Child(side).parent := p;
      p.Child(side).side := side;
    }
    if t.parent != null {
      if t.parent.Child(side) == p {
        t.parent.SetChild(side, t);
      } else {
        t.parent.SetChild(opside, t);
      }
    }
  }

  /** The pointer part of a rotation, on all fields of the tree. */
  method RotateLinks(ghost ns: set<TNode>, p: TNode, side: Side, ghost s: TNode, ghost inner: TNode?, ghost par: TNode?)
    returns (t: TNode)
    requires side != Undef && Pivots(Snap(ns), p, side, s, inner, par)
    modifies ns`parent, ns`side, ns`left, ns`right
    ensures t == s
    ensures Rotates(old(Snap(ns)), Snap(ns), p, side, s, inner, par, old(p.bfc), old(s.bfc))
  {
    t := RotatePointers(p, side, s, inner, par);
  }

  method SetBfc(ghost ns: set<TNode>, n: TNode, b: int)
    requires n in ns
    modifies n`bfc
    ensures Snap(ns) == old(Snap(ns))[n := old(RecOf(n)).(bfc := b)]
  {
    n.bfc := b;
  }

  /** The balance factor a single rotation gives to the node it moves down. */
  function LoweredBfc(r: Rec, side: Side, sb: int): int
    requires side != Undef
  {
    if IsInternal(r.left, r.right) then (if sb != SideBfc(side) then SideBfc(side) else 0)
    else CountBfc(r.left, r.right)
  }

  /** A single rotation up to the balance factor of the new root. */
  method RotateLowering(ghost ns: set<TNode>, p: TNode, side: Side, ghost s: TNode, ghost inner: TNode?,
        ghost par: TNode?)
    returns (t: TNode)
    requires side != Undef && Pivots(Snap(ns), p, side, s, inner, par)
    modifies ns`parent, ns`side, ns`left, ns`right, ns`bfc
    ensures t == s
    ensures var m := old(Snap(ns));
      Rotates(m, Snap(ns), p, side, s, inner, par, LoweredBfc(WithChild(m[p], side, inner), side, m[s].bfc), m[s].bfc)
  {
    t := RotateLinks(ns, p, side, s, inner, par);
    var n := t.Child(Opposite(side));
    if IsInternal(n.left, n.right) {
      SetBfc(ns, n, if n.parent.bfc != SideBfc(side) then SideBfc(side) else 0);
    } else {
      SetBfc(ns, n, CountBfc(n.left, n.right));
    }
  }

  method RotateSingle(ghost ns: set<TNode>, p: TNode, side: Side, ghost s: TNode, ghost inner: TNode?,
        ghost par: TNode?)
    returns (t: TNode)
    requires side != Undef && Pivots(Snap(ns), p, side, s, inner, par)
    modifies ns`parent, ns`side, ns`left, ns`right, ns`bfc
    ensures t == s
    ensures var m := old(Snap(ns));
      Rotates(m, Snap(ns), p, side, s, inner, par,
              LoweredBfc(WithChild(m[p], side, inner), side, m[s].bfc), m[s].bfc + SideBfc(Opposite(side)))
  {
    t := RotateLowering(ns, p, side, s, inner, par);
    SetBfc(ns, t, t.bfc + SideBfc(Opposite(side)));
  }

  /** The balance factor a double rotation gives to a node that ends below on side `side`. */
  function SplitBfc(r: Rec, side: Side, rb: int): int
    requires side != Undef
  {
    if IsInternal(r.left, r.right) then (if rb == SideBfc(Opposite(side)) then SideBfc(side) else 0)
    else CountBfc(r.left, r.right)
  }

  /** `p`, its child `s` on `side`, the inner child `g` of `s` and the two children of `g`. */
  ghost predicate DoublePivots(m: Fields, p: TNode, side: Side, s: TNode, g: TNode,
                               near: TNode?, far: TNode?, par: TNode?)
    requires side != Undef
  {
    && Pivots(m, s, Opposite(side), g, near, p)
    && p in m && Child(m[p], side) == s && Child(m[p], Opposite(side)) != s
    && Child(m[g], Opposite(side)) == far && m[p].parent == par
    && (far != null ==> far in m) && (par != null ==> par in m)
    && far != p && far != s && far != g && (far != null ==> far != near)
    && par != p && par != s && par != g && (par != null ==> par != near && par != far)
  }

  /** First half of a double rotation: `g` moves above its parent `s`. */
  method RotateLower(ghost ns: set<TNode>, s: TNode, side: Side, ghost g: TNode, ghost near: TNode?, ghost p: TNode)
    returns (t: TNode)
    requires side != Undef && Pivots(Snap(ns), s, Opposite(side), g, near, p)
    modifies ns`parent, ns`side, ns`left, ns`right, ns`bfc
    ensures t == g
    ensures var m := old(Snap(ns));
      Rotates(m, Snap(ns), s, Opposite(side), g, near, p,
              SplitBfc(WithChild(m[s], Opposite(side), near), side, m[g].bfc), m[g].bfc)
  {
    t := RotateLinks(ns, s, Opposite(side), g, near, p);
    var low := t.Child(side);
    if IsInternal(low.left, low.right) {
      SetBfc(ns, low, if t.bfc == SideBfc(Opposite(side)) then SideBfc(side) else 0);
    } else {
      SetBfc(ns, low, CountBfc(low.left, low.right));
    }
  }

  /** Second half: `g` moves above `p` as well. */
  method RotateUpper(ghost ns: set<TNode>, p: TNode, side: Side, ghost g: TNode, ghost far: TNode?, ghost par: TNode?)
    returns (t: TNode)
    requires side != Undef && Pivots(Snap(ns), p, side, g, far, par)
    modifies ns`parent, ns`side, ns`left, ns`right, ns`bfc
    ensures t == g
    ensures var m := old(Snap(ns));
      Rotates(m, Snap(ns), p, side, g, far, par,
              SplitBfc(WithChild(m[p], side, far), Opposite(side), m[g].bfc), 0)
  {
    t := RotateLinks(ns, p, side, g, far, par);
    if IsInternal(p.left, p.right) {
      SetBfc(ns, p, if t.bfc == SideBfc(side) then SideBfc(Opposite(side)) else 0);
    } else {
      SetBfc(ns, p, CountBfc(p.left, p.right));
    }
    SetBfc(ns, t, 0);
  }

  method RotateDouble(ghost ns: set<TNode>, p: TNode, side: Side, ghost s: TNode, ghost g: TNode,
                      ghost near: TNode?, ghost far: TNode?, ghost par: TNode?)
    returns (t: TNode, ghost mid: Fields)
    requires side != Undef && DoublePivots(Snap(ns), p, side, s, g, near, far, par)
    modifies ns`parent, ns`side, ns`left, ns`right, ns`bfc
    ensures t == g
    ensures var m := old(Snap(ns));
      && Rotates(m, mid, s, Opposite(side), g, near, p,
                 SplitBfc(WithChild(m[s], Opposite(side), near), side, m[g].bfc), m[g].bfc)
      && Rotates(mid, Snap(ns), p, side, g, far, par,
                 SplitBfc(WithChild(m[p], side, far), Opposite(side), m[g].bfc), 0)
  {
    var n := p.Child(side);
    n := RotateLower(ns, n, side, g, near, p);
    mid := Snap(ns);
    assert mid[g] == RecOf(g);
    t := RotateUpper(ns, n.parent, side, g, far, par);
  }
}
