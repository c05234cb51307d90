/**
 Nodes of the intrusive red-black tree and their fields as a value
 (include/ds/rbtree.h).
 */
module RbNodes {

  /** A direction `d` is true for left and false for right. */
  class RbNode {
    var parent: RbNode?
    var left: RbNode?
    var right: RbNode?
    var red: bool
    const key: int

    constructor (k: int)
      ensures key == k
    {
      parent, left, right, red, key := null, null, null, true, k;
    }

    function Child(d: bool): RbNode?
      reads this
    {
      if d then left else right
    }

    method SetChild(d: bool, c: RbNode?)
      modifies this`left, this`right
      ensures RecOf(this) == WithChild(old(RecOf(this)), d, c)
    {
      if d { left := c; } else { right := c; }
    }
  }

  datatype Rec = Rec(parent: RbNode?, left: RbNode?, right: RbNode?, red: bool)

  type Fields = map<RbNode, Rec>

  ghost function RecOf(n: RbNode): Rec
    reads n
  {
    Rec(n.parent, n.left, n.right, n.red)
  }

  ghost function Snap(ns: set<RbNode>): Fields
    reads ns
  {
    map n | n in ns :: RecOf(n)
  }

  ghost function WithChild(r: Rec, d: bool, c: RbNode?): Rec {
    if d then r.(left := c) else r.(right := c)
  }

  /** The fields of a node with child `near` in direction `d` and `far` in the other. */
  ghost function MkRec(d: bool, par: RbNode?, near: RbNode?, far: RbNode?, red: bool): Rec {
    if d then Rec(par, near, far, red) else Rec(par, far, near, red)
  }
}
