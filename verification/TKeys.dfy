/**
 Steps that change the keys of one or two nodes of a T*-tree and leave its
 structure alone, seen from the whole tree (kernel/ds/ttree.c).
 */
module TKeys {
  import opened Shapes
  import opened TNodes
  import opened TLinks
  import opened TContent
  import opened TRebalance
  import opened TFixup

  /** Only the keys of the nodes in `xs` changed. */
  ghost predicate KeysOnly(m: Fields, m': Fields, xs: set<TNode>) {
    SameTree(m, m') && forall n :: n in m && n !in xs ==> m'[n].items == m[n].items
  }

  /** The first key of `y` has become the last one of `x`. */
  ghost predicate KeyLent(m: Fields, m': Fields, x: TNode, y: TNode?) {
    && y != null && y != x && x in m && y in m && m[y].items != [] && KeysOnly(m, m', {x, y})
    && m'[x].items == m[x].items + [m[y].items[0]] && m'[y].items == m[y].items[1..]
  }

  /** The structural part of `Tree`. */
  ghost predicate Bare(m: Fields, s: TShape) {
    m.Keys == Nodes(s) && Whole(m, s) && Threaded(m, Inorder(s))
  }

  lemma {:induction false} BareFrame(m: Fields, m': Fields, s: TShape)
    requires SameTree(m, m') && Bare(m, s)
    ensures Bare(m', s)
  {
    LinkedFrame(m, m', s, null, Undef);
    BalFrame(m, m', s);
  }

  /** The keys in order after those of one node of the row changed. */
  lemma {:induction false} FlatOneChanged(m: Fields, m': Fields, a: seq<TNode>, x: TNode, b: seq<TNode>)
    requires x in m && KeysOnly(m, m', {x}) && NoDup(a + [x] + b)
    ensures Flat(m, a + [x] + b) == Flat(m, a) + m[x].items + Flat(m, b)
    ensures Flat(m', a + [x] + b) == Flat(m, a) + m'[x].items + Flat(m, b)
  {
    FlatAround(m, a, x, b);
    FlatAround(m', a, x, b);
    RowWithout(a, x, b);
    FlatFrame(m, m', a);
    FlatFrame(m, m', b);
  }

  lemma {:induction false} RowWithout(a: seq<TNode>, x: TNode, b: seq<TNode>)
    requires NoDup(a + [x] + b)
    ensures forall i :: 0 <= i < |a| ==> a[i] != x
    ensures forall i :: 0 <= i < |b| ==> b[i] != x
  {
    var q := a + [x] + b;
    forall i | 0 <= i < |a| ensures a[i] != x { assert q[i] != q[|a|]; }
    forall i | 0 <= i < |b| ensures b[i] != x { assert q[|a| + 1 + i] == b[i] && q[|a|] != q[|a| + 1 + i]; }
  }

  /** Keys moved between two neighbours of the row leave the keys in order as they were. */
  lemma {:induction false} FlatPairChanged(m: Fields, m': Fields, a: seq<TNode>, x: TNode, y: TNode, b: seq<TNode>)
    requires x in m && y in m && KeysOnly(m, m', {x, y}) && NoDup(a + [x] + [y] + b)
    requires m'[x].items + m'[y].items == m[x].items + m[y].items
    ensures Flat(m', a + [x] + [y] + b) == Flat(m, a + [x] + [y] + b)
  {
    var q := a + [x] + [y] + b;
    forall i | 0 <= i < |a| ensures a[i] != x && a[i] != y { assert q[i] == a[i] && q[|a|] == x && q[|a| + 1] == y; }
    forall i | 0 <= i < |b| ensures b[i] != x && b[i] != y {
      assert q[|a| + 2 + i] == b[i] && q[|a|] == x && q[|a| + 1] == y;
    }
    FlatFrame(m, m', a);
    FlatFrame(m, m', b);
    FlatTwo(m, a, x, y, b);
    FlatTwo(m', a, x, y, b);
  }

  lemma {:induction false} FlatTwo(m: Fields, a: seq<TNode>, x: TNode, y: TNode, b: seq<TNode>)
    requires x in m && y in m
    ensures Flat(m, a + [x] + [y] + b) == Flat(m, a) + (m[x].items + m[y].items) + Flat(m, b)
  {
    FlatAround(m, a + [x], y, b);
    FlatAppend(m, a, [x]);
    FlatOne(m, x);
    Group(Flat(m, a), m[x].items, m[y].items, Flat(m, b));
  }

  /** Removes the key in room `idx` of `x`. */
  method RemoveKey(ghost ns: set<TNode>, k: int, x: TNode, idx: int)
    requires Windows(ns, k) && x in ns && x.minIdx <= idx <= x.maxIdx
    modifies x`minIdx, x`maxIdx, x`items, x.keys
    ensures Windows(ns, k) && KeysOnly(old(Snap(ns)), Snap(ns), {x})
    ensures x.items == old(x.items[..idx - x.minIdx] + x.items[idx - x.minIdx + 1..])
  {
    ghost var others := ns - {x};
    assert x.Window(k) && forall n :: n in others ==> n.Window(k) && n.keys != x.keys;
    x.DecreaseWindow(k, idx);
    assert forall n :: n in others ==> n.Window(k);
  }

  /** Puts a key into room `idx` of `x`, which has a free room. */
  method InsertKey(ghost ns: set<TNode>, k: int, x: TNode, idx: int, key: int)
    requires Windows(ns, k) && x in ns && x.NumKeys() < k && x.minIdx <= idx <= x.maxIdx + 1
    modifies x`minIdx, x`maxIdx, x`items, x.keys
    ensures Windows(ns, k) && KeysOnly(old(Snap(ns)), Snap(ns), {x})
    ensures x.items == old(x.items[..idx - x.minIdx] + [key] + x.items[idx - x.minIdx..])
  {
    ghost var others := ns - {x};
    assert x.Window(k) && forall n :: n in others ==> n.Window(k) && n.keys != x.keys;
    x.InsertAt(k, idx, key);
    assert forall n :: n in others ==> n.Window(k);
  }

  /** Takes the largest key out of a full node and puts `key` into room `idx`. */
  method ReplaceMax(ghost ns: set<TNode>, k: int, x: TNode, idx: int, key: int) returns (last: int)
    requires Windows(ns, k) && x in ns && x.NumKeys() == k && k >= 1 && x.minIdx <= idx <= x.maxIdx
    modifies x`minIdx, x`maxIdx, x`items, x.keys
    ensures Windows(ns, k) && KeysOnly(old(Snap(ns)), Snap(ns), {x})
    ensures last == old(x.items[k - 1])
    ensures x.items == old(x.items[..idx - x.minIdx] + [key] + x.items[idx - x.minIdx..k - 1])
  {
    ghost var others := ns - {x};
    assert x.Window(k) && forall n :: n in others ==> n.Window(k) && n.keys != x.keys;
    last := x.SwapMax(k, idx, key);
    assert forall n :: n in others ==> n.Window(k);
  }

  /** The smallest key of `y` moves to the end of `x`. */
  method Borrow(ghost ns: set<TNode>, k: int, x: TNode, y: TNode)
    requires Windows(ns, k) && x in ns && y in ns && x != y && x.NumKeys() < k && y.items != []
    modifies {x, y}`minIdx, {x, y}`maxIdx, {x, y}`items, x.keys
    ensures Windows(ns, k) && KeysOnly(old(Snap(ns)), Snap(ns), {x, y})
    ensures x.items == old(x.items + y.items[..1]) && y.items == old(y.items[1..])
  {
    ghost var others := ns - {x, y};
    assert x.Window(k) && y.Window(k) && x.keys != y.keys;
    assert forall n :: n in others ==> n.Window(k) && n.keys != x.keys;
    x.BorrowFrom(k, y);
    assert forall n :: n in others ==> n.Window(k);
  }

  /** All keys of the child `n` move into `x`; they go behind those of `x` if `n` is its right child. */
  method Merge(ghost ns: set<TNode>, k: int, x: TNode, n: TNode)
    requires k >= 2 && Windows(ns, k) && x in ns && n in ns && x != n && |x.items| + |n.items| <= k
    modifies {x, n}`minIdx, {x, n}`maxIdx, {x, n}`items, x.keys
    ensures Windows(ns, k) && KeysOnly(old(Snap(ns)), Snap(ns), {x, n}) && n.items == []
    ensures x.items == if n.side == Right then old(x.items + n.items) else old(n.items + x.items)
  {
    ghost var others := ns - {x, n};
    assert x.Window(k) && n.Window(k) && x.keys != n.keys;
    assert forall o :: o in others ==> o.Window(k) && o.keys != x.keys;
    if n.side == Right {
      x.MergeRight(k, n);
    } else {
      x.MergeLeft(k, n);
    }
    assert forall o :: o in others ==> o.Window(k);
  }
}
