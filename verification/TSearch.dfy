/**
 Looking up a key in a T*-tree, and where a missing key belongs
 (kernel/ds/ttree.c).
 */
module TSearch {
  import opened Shapes
  import opened TNodes
  import opened TLinks
  import opened TContent
  import opened TRebalance
  import opened TThread
  import opened TGrow

  datatype State = Untied | Tied | Pending

  /** A position in a tree: a node and either a room of it (side Undef) or one of its sides. */
  datatype Cursor = Cursor(tnode: TNode?, idx: int, side: Side, state: State)

  /** Binary search in rooms lo..hi; keys before room lo are smaller and behind room hi larger. */
  method LookupInside(x: TNode, k: int, key: int, lo: int, hi: int) returns (found: bool, at: int)
    requires x.Window(k) && Ascending(x.items) && x.minIdx <= lo <= hi + 1 <= x.maxIdx + 1
    requires Less(x.items[..lo - x.minIdx], key) && More(x.items[hi + 1 - x.minIdx..], key)
    ensures found ==> lo <= at <= hi && x.keys[at] == key
    ensures !found ==> lo <= at <= hi + 1
    ensures !found ==> Less(x.items[..at - x.minIdx], key) && More(x.items[at - x.minIdx..], key)
  {
    var floor, ceil := lo, hi;
    while floor <= ceil
      invariant lo <= floor <= ceil + 1 <= hi + 1
      invariant Less(x.items[..floor - x.minIdx], key) && More(x.items[ceil + 1 - x.minIdx..], key)
    {
      var mid := (floor + ceil) / 2;
      ghost var p := mid - x.minIdx;
      assert x.keys[mid] == x.items[p];
      if key < x.keys[mid] {
        ceil := mid - 1;
        AboveFrom(x.items, p, key);
      } else if key > x.keys[mid] {
        floor := mid + 1;
        BelowUpTo(x.items, p, key);
      } else {
        return true, mid;
      }
    }
    return false, floor;
  }

  lemma {:induction false} AboveFrom(q: seq<int>, p: int, key: int)
    requires Ascending(q) && 0 <= p < |q| && key < q[p]
    ensures More(q[p..], key)
  {
  }

  lemma {:induction false} BelowUpTo(q: seq<int>, p: int, key: int)
    requires Ascending(q) && 0 <= p < |q| && q[p] < key
    ensures Less(q[..p + 1], key)
  {
  }

  /** The nodes before and after a node whose left and right subtrees are `l` and `r`. */
  ghost function RowL(c: TCtx, l: TShape): seq<TNode> { Before(c) + Inorder(l) }

  ghost function RowR(c: TCtx, r: TShape): seq<TNode> { Inorder(r) + After(c) }

  lemma {:induction false} NodeRow(m: Fields, c: TCtx, l: TShape, x: TNode, r: TShape)
    ensures Inorder(Plug(c, Node(l, x, r))) == RowL(c, l) + [x] + RowR(c, r)
    ensures Flat(m, Inorder(Plug(c, Node(l, x, r)))) == Flat(m, RowL(c, l)) + Items(m, x) + Flat(m, RowR(c, r))
    ensures Flat(m, RowL(c, l)) == Flat(m, Before(c)) + Flat(m, Inorder(l))
    ensures Flat(m, RowR(c, r)) == Flat(m, Inorder(r)) + Flat(m, After(c))
  {
    PlugInorder(c, Node(l, x, r));
    Regroup'(Before(c), Inorder(l), [x], Inorder(r), After(c));
    FlatAppend(m, Before(c), Inorder(l));
    FlatAppend(m, Inorder(r), After(c));
    Tail(Before(c) + Inorder(l) + [x], Inorder(r), After(c));
    FlatAround(m, RowL(c, l), x, RowR(c, r));
  }

  lemma Tail<T>(a: seq<T>, b: seq<T>, c: seq<T>)
    ensures a + b + c == a + (b + c)
  {
  }

  /** `key` belongs at position `p` of the keys of `x`: all before it are smaller, all after it larger. */
  ghost predicate Gap(m: Fields, c: TCtx, l: TShape, x: TNode, r: TShape, p: int, key: int) {
    && x in m && 0 <= p <= |m[x].items|
    && Less(Flat(m, RowL(c, l)), key) && Less(m[x].items[..p], key)
    && More(m[x].items[p..], key) && More(Flat(m, RowR(c, r)), key)
  }

  /** The same with equal keys on either side: the place keeps the order. */
  ghost predicate At(m: Fields, c: TCtx, l: TShape, x: TNode, r: TShape, p: int, key: int) {
    && x in m && 0 <= p <= |m[x].items|
    && Below(Flat(m, RowL(c, l)), key) && Below(m[x].items[..p], key)
    && Above(m[x].items[p..], key) && Above(Flat(m, RowR(c, r)), key)
  }

  lemma {:induction false} GapAt(m: Fields, c: TCtx, l: TShape, x: TNode, r: TShape, p: int, key: int)
    requires Gap(m, c, l, x, r, p, key)
    ensures At(m, c, l, x, r, p, key)
  {
    hide Flat;
  }

  lemma {:induction false} OrderAround(a: seq<int>, i: seq<int>, b: seq<int>)
    requires Ascending(a + i + b) && i != []
    ensures Below(a, i[0]) && Above(b, i[|i| - 1]) && Ascending(i)
    ensures forall j :: 0 <= j < |i| ==> i[0] <= i[j] <= i[|i| - 1]
  {
    var q := a + i + b;
    assert forall j :: 0 <= j < |i| ==> q[|a| + j] == i[j];
    assert forall j :: 0 <= j < |a| ==> q[j] == a[j];
    assert forall j :: 0 <= j < |b| ==> q[|a| + |i| + j] == b[j];
  }

  lemma {:induction false} More3(a: seq<int>, b: seq<int>, key: int)
    requires More(a, key) && More(b, key)
    ensures More(a + b, key)
  {
  }

  lemma {:induction false} Less3(a: seq<int>, b: seq<int>, key: int)
    requires Less(a, key) && Less(b, key)
    ensures Less(a + b, key)
  {
  }

  lemma {:induction false} Above3(a: seq<int>, b: seq<int>, key: int)
    requires Above(a, key) && Above(b, key)
    ensures Above(a + b, key)
  {
  }

  lemma {:induction false} Below3(a: seq<int>, b: seq<int>, key: int)
    requires Below(a, key) && Below(b, key)
    ensures Below(a + b, key)
  {
  }

  /**
   On the way down: keys after the hole are larger, keys before it smaller, except perhaps in the last node
   before it.
   */
  ghost predicate Seek(m: Fields, c: TCtx, key: int) {
    var b := Before(c);
    && More(Flat(m, After(c)), key)
    && (b != [] ==>
      Less(Flat(m, b[..|b| - 1]), key) && Last(b) in m && m[Last(b)].items != [] && m[Last(b)].items[0] < key)
  }

  /** The keys of a node of the tree, between those before and after it. */
  lemma {:induction false} NodeOrder(m: Fields, c: TCtx, l: TShape, x: TNode, r: TShape)
    requires Tree(m, Plug(c, Node(l, x, r)))
    ensures x in m && m[x].items != [] && Ascending(m[x].items)
    ensures Below(Flat(m, RowL(c, l)), m[x].items[0]) && Above(Flat(m, RowR(c, r)), m[x].items[|m[x].items| - 1])
    ensures forall j :: 0 <= j < |m[x].items| ==> m[x].items[0] <= m[x].items[j] <= m[x].items[|m[x].items| - 1]
  {
    PlugNodes(c, Node(l, x, r));
    NodeRow(m, c, l, x, r);
    assert x in Nodes(Node(l, x, r));
    OrderAround(Flat(m, RowL(c, l)), m[x].items, Flat(m, RowR(c, r)));
  }

  lemma {:induction false} SeekLeft(m: Fields, c: TCtx, l: TShape, x: TNode, r: TShape, key: int)
    requires Tree(m, Plug(c, Node(l, x, r))) && Seek(m, c, key) && x in m && m[x].items != [] && key < m[x].items[0]
    ensures Seek(m, InLeft(c, x, r), key)
  {
    NodeOrder(m, c, l, x, r);
    assert After(InLeft(c, x, r)) == [x] + RowR(c, r) by { Tail([x], Inorder(r), After(c)); }
    FlatAppend(m, [x], RowR(c, r));
    FlatOne(m, x);
    More3(m[x].items, Flat(m, RowR(c, r)), key);
  }

  lemma {:induction false} SeekRight(m: Fields, c: TCtx, l: TShape, x: TNode, r: TShape, key: int)
    requires Tree(m, Plug(c, Node(l, x, r))) && Seek(m, c, key) && x in m && m[x].items != [] && key > m[x].items[0]
    ensures Seek(m, InRight(l, x, c), key)
  {
    NodeOrder(m, c, l, x, r);
    var b := Before(InRight(l, x, c));
    assert b == RowL(c, l) + [x] && b[..|b| - 1] == RowL(c, l) && Last(b) == x;
  }

  /** Where a node sits: its surroundings and its two subtrees. */
  datatype Spot = Spot(c: TCtx, l: TShape, r: TShape)

  ghost predicate Sits(s: TShape, x: TNode, at: Spot) { Plug(at.c, Node(at.l, x, at.r)) == s }

  lemma {:induction false} SitsIn(m: Fields, s: TShape, x: TNode, at: Spot)
    requires Tree(m, s) && Sits(s, x, at)
    ensures x in m && m[x].items != [] && Ascending(m[x].items)
    ensures m[x].left == Root(at.l) && m[x].right == Root(at.r) && m[x].parent == CtxParent(at.c)
    ensures m[x].side == CtxSide(at.c)
  {
    NodeOrder(m, at.c, at.l, x, at.r);
    PlugLinked(m, at.c, Node(at.l, x, at.r));
  }

  /** The way down ended in an empty place `c`; `marked` is the last node before it. */
  ghost predicate Bottom(m: Fields, s: TShape, c: TCtx, marked: TNode?, at: Spot, key: int) {
    && !c.Top? && Plug(c, Nil) == s && Seek(m, c, key)
    && (marked == null <==> Before(c) == [])
    && (marked != null ==> Sits(s, marked, at) && Before(c) == RowL(at.c, at.l) + [marked])
  }

  lemma {:induction false} SeekTop(m: Fields, key: int)
    ensures Seek(m, Top, key)
  {
    var c: TCtx := Top;
    assert Flat(m, After(c)) == [] && Before(c) == [];
  }

  /** On the way down, at the subtree `t` in `c`; `marked` is the last node before it. */
  ghost predicate Way(m: Fields, s: TShape, c: TCtx, t: TShape, marked: TNode?, at: Spot, key: int) {
    && Plug(c, t) == s && Seek(m, c, key)
    && (marked == null <==> Before(c) == [])
    && (marked != null ==> Sits(s, marked, at) && Before(c) == RowL(at.c, at.l) + [marked])
  }

  lemma {:induction false} WayTop(m: Fields, s: TShape, at: Spot, key: int)
    ensures Way(m, s, Top, s, null, at, key)
  {
    SeekTop(m, key);
    var c: TCtx := Top;
    assert Before(c) == [];
  }

  lemma {:induction false} WayLeft(m: Fields, s: TShape, c: TCtx, t: TShape, marked: TNode?, at: Spot, key: int)
    requires Tree(m, s) && Way(m, s, c, t, marked, at, key) && t.Node? && t.n in m && m[t.n].items != []
    requires key < m[t.n].items[0]
    ensures Way(m, s, InLeft(c, t.n, t.r), t.l, marked, at, key)
  {
    SeekLeft(m, c, t.l, t.n, t.r, key);
  }

  lemma {:induction false} WayRight(m: Fields, s: TShape, c: TCtx, t: TShape, marked: TNode?, at: Spot, key: int)
    requires Tree(m, s) && Way(m, s, c, t, marked, at, key) && t.Node? && t.n in m && m[t.n].items != []
    requires key > m[t.n].items[0]
    ensures Way(m, s, InRight(t.l, t.n, c), t.r, t.n, Spot(c, t.l, t.r), key)
  {
    SeekRight(m, c, t.l, t.n, t.r, key);
  }

  lemma {:induction false} WayHere(m: Fields, s: TShape, c: TCtx, t: TShape, marked: TNode?, at: Spot, key: int)
    requires Tree(m, s) && Way(m, s, c, t, marked, at, key) && t.Node?
    ensures Sits(s, t.n, Spot(c, t.l, t.r)) && t.n in m && m[t.n].items != []
    ensures m[t.n].left == Root(t.l) && m[t.n].right == Root(t.r)
  {
    SitsIn(m, s, t.n, Spot(c, t.l, t.r));
  }

  lemma {:induction false} WayEnd(m: Fields, s: TShape, c: TCtx, marked: TNode?, at: Spot, key: int)
    requires Way(m, s, c, Nil, marked, at, key) && s.Node?
    ensures Bottom(m, s, c, marked, at, key)
  {
  }

  /** Room `idx` of `x` holds `key`. */
  ghost predicate Found(s: TShape, x: TNode, k: int, idx: int, at: Spot, key: int)
    reads x, x.keys
  {
    Sits(s, x, at) && x.keys.Length == k && 0 <= x.minIdx <= idx <= x.maxIdx < k && x.keys[idx] == key
  }

  /** Goes down comparing with the smallest key of each node only. */
  method Descend(ghost ns: set<TNode>, k: int, root: TNode, key: int, ghost s: TShape)
    returns (hit: bool, target: TNode, marked: TNode?, side: Side, ghost c: TCtx, ghost at: Spot)
    requires Windows(ns, k) && Tree(Snap(ns), s) && root == Root(s)
    ensures hit ==> target in ns && Found(s, target, k, target.minIdx, at, key)
    ensures !hit ==> Bottom(Snap(ns), s, c, marked, at, key) && !c.Top? && target == c.n && side == CtxSide(c)
  {
    hide Tree, Way, Windows, Sits, Bottom;
    ghost var m, t := Snap(ns), s;
    var n: TNode? := root;
    target, marked, side, c, hit := root, null, Undef, Top, false;
    at := Spot(Top, Nil, Nil);
    WayTop(m, s, at, key);
    while n != null
      invariant n == Root(t) && Way(m, s, c, t, marked, at, key) && !hit
      invariant if c.Top? then t == s else target == c.n && side == CtxSide(c)
      decreases t
    {
      WayHere(m, s, c, t, marked, at, key);
      OneWindow(ns, k, n);
      assert n.items == m[n].items;
      target := n;
      var min := n.keys[n.minIdx];
      if key < min {
        WayLeft(m, s, c, t, marked, at, key);
        side, n, c, t := Left, n.left, InLeft(c, n, t.r), t.l;
      } else if key > min {
        WayRight(m, s, c, t, marked, at, key);
        marked, at := n, Spot(c, t.l, t.r);
        side, n, c, t := Right, n.right, InRight(t.l, n, c), t.r;
      } else {
        at, hit := Spot(c, t.l, t.r), true;
        return;
      }
    }
    WayEnd(m, s, c, marked, at, key);
  }

  /**
   `key` is missing; it belongs at position `p` of `x`, or in a new child of `x` on `side`
   if `x` is full.  At either end of `x` there is no child on that side.
   */
  ghost predicate Vacant(m: Fields, s: TShape, k: int, x: TNode, p: int, side: Side, at: Spot, key: int) {
    && Sits(s, x, at) && Gap(m, at.c, at.l, x, at.r, p, key)
    && (p == 0 ==> at.l.Nil?) && (p == |m[x].items| ==> at.r.Nil?)
    && (side == Undef ==> |m[x].items| < k || 0 < p < |m[x].items|)
    && (side == Left ==> p == 0 && |m[x].items| == k)
    && (side == Right ==> p == |m[x].items| == k)
  }

  lemma {:induction false} VacantMissing(m: Fields, s: TShape, k: int, x: TNode, p: int, side: Side, at: Spot, key: int)
    requires Vacant(m, s, k, x, p, side, at, key)
    ensures key !in Flat(m, Inorder(s))
  {
    NodeRow(m, at.c, at.l, x, at.r);
    var a, i, b := Flat(m, RowL(at.c, at.l)), m[x].items, Flat(m, RowR(at.c, at.r));
    hide *;
    NotBetween(a, i, p, b, key);
  }

  lemma {:induction false} NotBetween(a: seq<int>, i: seq<int>, p: int, b: seq<int>, key: int)
    requires 0 <= p <= |i| && Less(a, key) && Less(i[..p], key) && More(i[p..], key) && More(b, key)
    ensures key !in a + i + b
  {
    forall j | 0 <= j < |i| ensures i[j] != key {
      assert j < p ==> i[..p][j] == i[j];
      assert j >= p ==> i[p..][j - p] == i[j];
    }
  }

  lemma {:induction false} PresentIn(m: Fields, s: TShape, x: TNode, at: Spot, j: int)
    requires Sits(s, x, at) && x in m && 0 <= j < |m[x].items|
    ensures m[x].items[j] in Flat(m, Inorder(s))
  {
    NodeRow(m, at.c, at.l, x, at.r);
    var a, i, b := Flat(m, RowL(at.c, at.l)), m[x].items, Flat(m, RowR(at.c, at.r));
    assert (a + i + b)[|a| + j] == i[j];
  }

  /** The key is missing and belongs into the hole. */
  ghost predicate Between(m: Fields, c: TCtx, key: int) {
    Less(Flat(m, Before(c)), key) && More(Flat(m, After(c)), key)
  }

  /** Past the largest key of the last node before the hole, the key fits into the hole. */
  lemma {:induction false} BeyondMax(m: Fields, s: TShape, c: TCtx, marked: TNode?, at: Spot, key: int)
    requires Tree(m, s) && Bottom(m, s, c, marked, at, key)
    requires marked != null ==> marked in m && m[marked].items != [] && key > m[marked].items[|m[marked].items| - 1]
    ensures Between(m, c, key)
  {
    if marked == null {
      assert Flat(m, Before(c)) == [];
    } else {
      NodeOrder(m, at.c, at.l, marked, at.r);
      var b := Before(c);
      assert b[..|b| - 1] == RowL(at.c, at.l);
      FlatAppend(m, RowL(at.c, at.l), [marked]);
      FlatOne(m, marked);
      Less3(Flat(m, RowL(at.c, at.l)), m[marked].items, key);
    }
  }

  ghost function HoleSpot(c: TCtx): Spot
    requires !c.Top?
  {
    if c.InLeft? then Spot(c.up, Nil, c.r) else Spot(c.up, c.l, Nil)
  }

  /** A key that fits into a hole belongs before or behind all keys of the node above the hole. */
  lemma {:induction false} BetweenGap(m: Fields, s: TShape, c: TCtx, key: int)
    requires !c.Top? && Plug(c, Nil) == s && Between(m, c, key) && c.n in m
    ensures Sits(s, c.n, HoleSpot(c))
    ensures Gap(m, c.up, HoleSpot(c).l, c.n, HoleSpot(c).r, if c.InLeft? then 0 else |m[c.n].items|, key)
  {
    var x := c.n;
    if c.InLeft? {
      FlatAppend(m, [x], RowR(c.up, c.r));
      FlatOne(m, x);
      Tail([x], Inorder(c.r), After(c.up));
      assert RowL(c.up, Nil) == Before(c);
      MoreParts(m[x].items, Flat(m, RowR(c.up, c.r)), key);
    } else {
      FlatAppend(m, RowL(c.up, c.l), [x]);
      FlatOne(m, x);
      assert RowR(c.up, Nil) == After(c);
      LessParts(Flat(m, RowL(c.up, c.l)), m[x].items, key);
    }
  }

  lemma {:induction false} MoreParts(a: seq<int>, b: seq<int>, key: int)
    requires More(a + b, key)
    ensures More(a[0..], key) && More(b, key)
  {
    assert forall j :: 0 <= j < |b| ==> (a + b)[|a| + j] == b[j];
    assert forall j :: 0 <= j < |a| ==> (a + b)[j] == a[j];
  }

  lemma {:induction false} LessParts(a: seq<int>, b: seq<int>, key: int)
    requires Less(a + b, key)
    ensures Less(a, key) && Less(b[..|b|], key)
  {
    assert forall j :: 0 <= j < |b| ==> (a + b)[|a| + j] == b[j];
    assert forall j :: 0 <= j < |a| ==> (a + b)[j] == a[j];
  }

  lemma {:induction false} InsideVacant(m: Fields, s: TShape, k: int, x: TNode, p: int, at: Spot, key: int)
    requires Tree(m, s) && Sits(s, x, at) && x in m && 0 < p < |m[x].items|
    requires Less(m[x].items[..p], key) && More(m[x].items[p..], key)
    ensures Vacant(m, s, k, x, p, Undef, at, key)
  {
    NodeOrder(m, at.c, at.l, x, at.r);
    var i := m[x].items;
    assert i[..p][0] == i[0] && i[p..][|i| - 1 - p] == i[|i| - 1];
  }

  /** Compares with the largest key, then searches between the smallest and the largest one. */
  method SearchRooms(x: TNode, k: int, key: int) returns (bounded: bool, found: bool, idx: int)
    requires k >= 2 && x.Window(k) && Ascending(x.items) && x.items != [] && x.items[0] < key
    ensures x.keys.Length == k && 0 <= x.minIdx <= x.maxIdx < k && x.NumKeys() == |x.items|
    ensures bounded && found ==> x.minIdx <= idx <= x.maxIdx && x.keys[idx] == key
    ensures bounded && !found ==> x.minIdx < idx <= x.maxIdx
    ensures bounded && !found ==> Less(x.items[..idx - x.minIdx], key) && More(x.items[idx - x.minIdx..], key)
    ensures !bounded ==> key > x.items[|x.items| - 1]
  {
    found, idx := false, FirstIdx(k);
    assert x.items[0] == x.keys[x.minIdx] && x.items[|x.items| - 1] == x.keys[x.maxIdx];
    bounded := key <= x.keys[x.maxIdx];
    if bounded {
      if key == x.keys[x.maxIdx] {
        found, idx := true, x.maxIdx;
      } else {
        BelowUpTo(x.items, 0, key);
        AboveFrom(x.items, |x.items| - 1, key);
        found, idx := LookupInside(x, k, key, x.minIdx + 1, x.maxIdx - 1);
      }
    }
  }

  lemma {:induction false} FoundPresent(ns: set<TNode>, k: int, s: TShape, x: TNode, idx: int, at: Spot, key: int)
    requires Windows(ns, k) && x in ns && Found(s, x, k, idx, at, key)
    ensures key in Flat(Snap(ns), Inorder(s))
  {
    OneWindow(ns, k, x);
    assert Snap(ns)[x].items[idx - x.minIdx] == key;
    PresentIn(Snap(ns), s, x, at, idx - x.minIdx);
  }

  /** The first room or the room behind the last one, or a side of a full node. */
  ghost function Offset(x: TNode, idx: int, side: Side): int
    reads x
  {
    if side == Left then 0 else if side == Right then |x.items| else idx - x.minIdx
  }

  lemma {:induction false} MarkedNode(ns: set<TNode>, k: int, s: TShape, x: TNode, at: Spot)
    requires Windows(ns, k) && Tree(Snap(ns), s) && Sits(s, x, at) && x in ns
    ensures x.Window(k) && Ascending(x.items) && x.items != [] && x.items == Snap(ns)[x].items
  {
    SitsIn(Snap(ns), s, x, at);
    OneWindow(ns, k, x);
  }

  method SearchMarked(ghost ns: set<TNode>, k: int, marked: TNode, key: int, ghost s: TShape, ghost at: Spot)
    returns (bounded: bool, found: bool, idx: int)
    requires k >= 2 && Windows(ns, k) && Tree(Snap(ns), s) && Sits(s, marked, at) && marked in ns
    requires Snap(ns)[marked].items != [] && Snap(ns)[marked].items[0] < key
    ensures bounded && found ==> Found(s, marked, k, idx, at, key)
    ensures bounded && !found ==> Vacant(Snap(ns), s, k, marked, idx - marked.minIdx, Undef, at, key)
    ensures !bounded ==> key > Snap(ns)[marked].items[|Snap(ns)[marked].items| - 1]
  {
    hide Tree, Windows, Sits, Vacant, Less, More, Ascending, TNode.Window;
    MarkedNode(ns, k, s, marked, at);
    bounded, found, idx := SearchRooms(marked, k, key);
    if bounded && !found {
      InsideVacant(Snap(ns), s, k, marked, idx - marked.minIdx, at, key);
    }
  }

  lemma {:induction false} BottomNode(m: Fields, s: TShape, c: TCtx, marked: TNode?, at: Spot, key: int)
    requires Tree(m, s) && Bottom(m, s, c, marked, at, key)
    ensures c.n in m
    ensures marked != null ==> Sits(s, marked, at) && marked in m && m[marked].items != [] && m[marked].items[0] < key
  {
    PlugNodes(c, Nil);
    assert c.n in CtxNodes(c);
    if marked != null {
      NodeOrder(m, at.c, at.l, marked, at.r);
      assert Last(Before(c)) == marked;
    }
  }

  lemma {:induction false} HoleVacant(m: Fields, s: TShape, k: int, c: TCtx, marked: TNode?, at: Spot, key: int,
        side: Side)
    requires Tree(m, s) && Bottom(m, s, c, marked, at, key) && c.n in m
    requires marked != null ==> marked in m && m[marked].items != [] && key > m[marked].items[|m[marked].items| - 1]
    requires if |m[c.n].items| < k then side == Undef else side == CtxSide(c) && |m[c.n].items| == k
    ensures Vacant(m, s, k, c.n, if c.InLeft? then 0 else |m[c.n].items|, side, HoleSpot(c), key)
    ensures c.InRight? ==> marked == c.n
    ensures c.InLeft? ==> marked != c.n
  {
    BeyondMax(m, s, c, marked, at, key);
    BetweenGap(m, s, c, key);
    BottomSide(m, s, c, marked, at, key);
  }

  lemma {:induction false} BottomSide(m: Fields, s: TShape, c: TCtx, marked: TNode?, at: Spot, key: int)
    requires Tree(m, s) && Bottom(m, s, c, marked, at, key)
    ensures c.InRight? ==> marked == c.n
    ensures c.InLeft? ==> marked != c.n
  {
    assert marked != null ==> Last(Before(c)) == marked;
    PlugDisj(c, Nil);
    CtxRow(c.up);
  }

  /** The position of a missing key: inside a node with room, or a side of a full one. */
  method Position(ghost ns: set<TNode>, k: int, target: TNode, marked: TNode?, side0: Side, key: int,
                  ghost s: TShape, ghost c: TCtx, ghost mark: Spot)
    returns (idx: int, side: Side, state: State)
    requires k >= 2 && Windows(ns, k) && Tree(Snap(ns), s) && Bottom(Snap(ns), s, c, marked, mark, key)
    requires !c.Top? && target == c.n && side0 == CtxSide(c) && target in ns
    requires marked != null ==> marked in ns && Snap(ns)[marked].items != [] &&
                                key > Snap(ns)[marked].items[|Snap(ns)[marked].items| - 1]
    ensures Vacant(Snap(ns), s, k, target, Offset(target, idx, side), side, HoleSpot(c), key)
    ensures side != Undef ==> idx == FirstIdx(k)
    ensures state == if side == Undef then Pending else Untied
  {
    ghost var m := Snap(ns);
    OneWindow(ns, k, target);
    hide Tree, Windows, Bottom, Vacant;
    if target.NumKeys() != k {
      HoleVacant(m, s, k, c, marked, mark, key, Undef);
      side := Undef;
      idx := if marked != target || side0 == Left then target.minIdx else target.maxIdx + 1;
      state := Pending;
    } else {
      HoleVacant(m, s, k, c, marked, mark, key, side0);
      side, idx, state := side0, FirstIdx(k), Untied;
    }
  }

  /** What a lookup promises about its result and cursor. */
  ghost predicate Answer(ns: set<TNode>, k: int, s: TShape, key: int, found: bool, cur: Cursor, at: Spot)
    reads ns, set n | n in ns :: n.keys
  {
    && cur.tnode != null && cur.tnode in ns
    && (found <==> key in Flat(Snap(ns), Inorder(s)))
    && (found ==> cur.side == Undef && cur.state == Tied && Found(s, cur.tnode, k, cur.idx, at, key))
    && (!found ==> Vacant(Snap(ns), s, k, cur.tnode, Offset(cur.tnode, cur.idx, cur.side), cur.side, at, key))
    && (cur.side != Undef ==> cur.idx == FirstIdx(k))
    && (!found ==> cur.state == if cur.side == Undef then Pending else Untied)
  }

  /** The way down has ended in an empty place: the key is in the last node before it or nowhere. */
  method Conclude(ghost ns: set<TNode>, k: int, target: TNode, marked: TNode?, side: Side, key: int,
                  ghost s: TShape, ghost c: TCtx, ghost mark: Spot)
    returns (found: bool, cur: Cursor, ghost at: Spot)
    requires k >= 2 && Windows(ns, k) && Tree(Snap(ns), s) && Bottom(Snap(ns), s, c, marked, mark, key)
    requires !c.Top? && target == c.n && side == CtxSide(c)
    ensures Answer(ns, k, s, key, found, cur, at)
  {
    hide Tree, Windows, Bottom, Vacant, Sits, Flat, Inorder, Found;
    ghost var m := Snap(ns);
    BottomNode(m, s, c, marked, mark, key);
    if marked != null {
      var bounded, inside, idx := SearchMarked(ns, k, marked, key, s, mark);
      if bounded {
        if inside {
          FoundPresent(ns, k, s, marked, idx, mark, key);
        } else {
          VacantMissing(m, s, k, marked, idx - marked.minIdx, Undef, mark, key);
        }
        return inside, Cursor(marked, idx, Undef, if inside then Tied else Pending), mark;
      }
    }
    var idx, side', state := Position(ns, k, target, marked, side, key, s, c, mark);
    at := HoleSpot(c);
    VacantMissing(m, s, k, target, Offset(target, idx, side'), side', at, key);
    return false, Cursor(target, idx, side', state), at;
  }

  method LookupFrom(ghost ns: set<TNode>, k: int, root: TNode, key: int, ghost s: TShape)
    returns (found: bool, cur: Cursor, ghost at: Spot)
    requires k >= 2 && Windows(ns, k) && Tree(Snap(ns), s) && root == Root(s)
    ensures Answer(ns, k, s, key, found, cur, at)
  {
    hide Tree, Windows, Bottom, Vacant, Flat, Inorder, Found;
    var hit, target, marked, side;
    ghost var c;
    hit, target, marked, side, c, at := Descend(ns, k, root, key, s);
    if hit {
      FoundPresent(ns, k, s, target, target.minIdx, at, key);
      return true, Cursor(target, target.minIdx, Undef, Tied), at;
    }
    found, cur, at := Conclude(ns, k, target, marked, side, key, s, c, at);
  }
}
