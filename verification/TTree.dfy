/**
 The T*-tree as an object: a finite set of keys with lookup, insertion and
 deletion (kernel/ds/ttree.c, include/ds/ttree.h).
 */
module TTrees {
  import opened Shapes
  import opened TNodes
  import opened TLinks
  import opened TContent
  import opened TRebalance
  import opened TFixup
  import opened TGrow
  import opened TKeys
  import opened TShrink
  import opened TSearch
  import opened TInsert
  import opened TDelete
  import opened TCursors
  import opened TSeeks

  class TTree {
    var root: TNode?
    /** Number of key rooms of a node. */
    const k: int
    ghost var nodes: set<TNode>
    ghost var shape: TShape

    /** Links, balance, thread, windows and key order, in every state a caller sees. */
    ghost predicate Valid()
      reads this, nodes, set n | n in nodes :: n.keys
    {
      k >= 2 && root == Root(shape) && Tree(Snap(nodes), shape) && Windows(nodes, k)
    }

    /** All keys in order. */
    ghost function Keys(): seq<int>
      reads this, nodes
    {
      Flat(Snap(nodes), Inorder(shape))
    }

    constructor (keysPerNode: int)
      requires 2 <= keysPerNode <= 2048
      ensures Valid() && Keys() == [] && root == null && nodes == {} && k == keysPerNode
    {
      root, k, nodes, shape := null, keysPerNode, {}, Nil;
      new;
      EmptyTree();
    }

    /** The first key makes the root. */
    method NewRoot(key: int)
      requires Valid() && root == null
      modifies this`root, this`nodes, this`shape
      ensures Valid() && fresh(nodes) && (forall n :: n in nodes ==> fresh(n.keys)) && Keys() == [key]
      ensures root != null && nodes == {root}
    {
      var n := new TNode(k, FirstIdx(k), key);
      root, nodes, shape := n, {n}, Node(Nil, n, Nil);
      OneNodeTree(Snap(nodes), n, key);
    }

    method Lookup(key: int) returns (found: bool, cur: Cursor, ghost at: Spot)
      requires Valid()
      ensures found <==> key in Keys()
      ensures root == null ==> cur == Cursor(null, FirstIdx(k), Undef, Untied)
      ensures root != null ==> Answer(nodes, k, shape, key, found, cur, at)
    {
      if root == null {
        return false, Cursor(null, FirstIdx(k), Undef, Untied), Spot(Top, Nil, Nil);
      }
      found, cur, at := LookupFrom(nodes, k, root, key, shape);
    }

    /** A place in a node that still has room. */
    method PutInNode(x: TNode, idx: int, key: int, ghost at: Spot) returns (ghost r: int)
      requires Valid() && x in nodes && x.NumKeys() < k && x.minIdx <= idx <= x.maxIdx + 1
      requires Sits(shape, x, at) && At(Snap(nodes), at.c, at.l, x, at.r, idx - x.minIdx, key)
      modifies x`minIdx, x`maxIdx, x`items, x.keys
      ensures Valid() && r == old(Rank(Snap(nodes), at, idx - x.minIdx))
      ensures 0 <= r <= |old(Keys())| && Keys() == Inserted(old(Keys()), r, key)
    {
      hide Tree, Windows, Sits, At, Flat, Inorder, Inserted, Rank, KeysOnly;
      ghost var m, p := Snap(nodes), idx - x.minIdx;
      r := Rank(m, at, p);
      InsertKey(nodes, k, x, idx, key);
      PutTree(m, Snap(nodes), shape, x, at, p, key);
    }

    /** A new child of `x` on `side`. */
    method PutInChild(x: TNode, side: Side, idx: int, key: int, ghost at: Spot, ghost p: int) returns (ghost r: int)
      requires Valid() && root != null && x in nodes && 0 <= idx < k
      requires Sits(shape, x, at) && At(Snap(nodes), at.c, at.l, x, at.r, p, key)
      requires (side == Left && at.l.Nil? && p == 0) || (side == Right && at.r.Nil? && p == |x.items|)
      modifies this`root, this`nodes, this`shape, nodes, set n | n in nodes :: n.keys
      ensures Valid() && fresh(nodes - old(nodes)) && (forall n :: n in nodes - old(nodes) ==> fresh(n.keys))
      ensures old(nodes) <= nodes
      ensures r == old(Rank(Snap(nodes), at, p)) && 0 <= r <= |old(Keys())| && Keys() == Inserted(old(Keys()), r, key)
    {
      hide Tree, Windows, Sits, At, Flat, Inorder, Inserted, Rank, Fits, Plug;
      ghost var m, h := Snap(nodes), SideHole(x, at, side);
      r := Rank(m, at, p);
      AtFits(m, shape, x, at, p, side, key);
      var n, root';
      ghost var s';
      n, root', s' := GrowLeaf(nodes, k, root, x, side, idx, key, h);
      root, nodes, shape := root', nodes + {n}, s';
    }

    /** The largest key of the full node `x` makes room for `key`. */
    method SwapInNode(x: TNode, idx: int, key: int, ghost at: Spot) returns (last: int, ghost r: int)
      requires Valid() && x in nodes && x.NumKeys() == k && x.minIdx <= idx <= x.maxIdx
      requires Sits(shape, x, at) && At(Snap(nodes), at.c, at.l, x, at.r, idx - x.minIdx, key)
      modifies x`minIdx, x`maxIdx, x`items, x.keys
      ensures Valid() && At(Snap(nodes), at.c, at.l, x, at.r, |x.items|, last)
      ensures r == old(Rank(Snap(nodes), at, idx - x.minIdx)) && 0 <= r <= |old(Keys())|
      ensures var b := Rank(Snap(nodes), at, |x.items|);
        0 <= b <= |Keys()| && Inserted(Keys(), b, last) == Inserted(old(Keys()), r, key)
    {
      hide Tree, Windows, Sits, At, Flat, Inorder, Inserted, KeysOnly, RowL, RowR;
      OneWindow(nodes, k, x);
      ghost var m, p := Snap(nodes), idx - x.minIdx;
      r := Rank(m, at, p);
      last := ReplaceMax(nodes, k, x, idx, key);
      SwapTree(m, Snap(nodes), shape, x, at, p, key);
      BehindNode(Snap(nodes), shape, x, at, last);
    }

    /** Passes `last`, which belongs right behind the keys of `x`, on: to a new right child or to the successor. */
    method PassBehind(x: TNode, last: int, ghost at: Spot)
      requires Valid() && root != null && x in nodes && Sits(shape, x, at)
      requires At(Snap(nodes), at.c, at.l, x, at.r, |x.items|, last)
      modifies this`root, this`nodes, this`shape, nodes, set n | n in nodes :: n.keys
      ensures Valid() && fresh(nodes - old(nodes)) && (forall n :: n in nodes - old(nodes) ==> fresh(n.keys))
      ensures old(nodes) <= nodes
      ensures var b := old(Rank(Snap(nodes), at, |x.items|));
        0 <= b <= |old(Keys())| && Keys() == Inserted(old(Keys()), b, last)
    {
      hide Tree, Windows, Sits, At, Flat, Inorder, Inserted, Rank;
      ghost var m, r := Snap(nodes), 0;
      SitsIn(m, shape, x, at);
      if x.successor == null || x.right == null {
        MaybePassOn(m, shape, x, at, last);
        r := PutInChild(x, Right, FirstIdx(k), last, at, |x.items|);
        return;
      }
      PassOn(m, shape, x, at, last);
      ghost var sy := LeftmostSpot(InRight(at.l, x, at.c), at.r);
      var y := x.successor;
      OneWindow(nodes, k, y);
      if y.NumKeys() == k {
        r := PutInChild(y, Left, FirstIdx(k), last, sy, 0);
      } else {
        r := PutInNode(y, y.minIdx, last, sy);
      }
    }

    /** Inserts at the place a lookup of `key` has found; a key that is there gets an equal one in front of it. */
    method InsertPlaceful(cur: Cursor, key: int, ghost found: bool, ghost at: Spot) returns (ghost r: int)
      requires Valid() && (root != null ==> Answer(nodes, k, shape, key, found, cur, at))
      modifies this`root, this`nodes, this`shape, nodes, set n | n in nodes :: n.keys
      ensures Valid() && fresh(nodes - old(nodes)) && (forall n :: n in nodes - old(nodes) ==> fresh(n.keys))
      ensures 0 <= r <= |old(Keys())| && Keys() == Inserted(old(Keys()), r, key)
      ensures old(root) == null ==> root != null && nodes == {root}
      ensures old(root) != null && cur.side == Undef && |old(cur.tnode.items)| < k ==> nodes == old(nodes)
    {
      hide Tree, Windows, Sits, At, Flat, Inorder, Inserted, Rank;
      if root == null {
        EmptyKeys(Snap(nodes), shape, key);
        NewRoot(key);
        return 0;
      }
      var x := cur.tnode;
      OneWindow(nodes, k, x);
      AnswerAt(nodes, k, shape, key, found, cur, at);
      if cur.side == Undef {
        if x.NumKeys() == k {
          var last;
          last, r := SwapInNode(x, cur.idx, key, at);
          PassBehind(x, last, at);
        } else {
          AtRange(Snap(nodes), at, x, cur.idx - x.minIdx, key);
          r := PutInNode(x, cur.idx, key, at);
        }
      } else {
        r := PutInChild(x, cur.side, cur.idx, key, at, Offset(x, cur.idx, cur.side));
      }
    }

    ghost function Contents(): set<int>
      reads this, nodes
    {
      set key | key in Keys()
    }

    /** 0 if the key was added, -1 if it was there already. */
    method Insert(key: int) returns (res: int, ghost r: int)
      requires Valid()
      modifies this, nodes, set n | n in nodes :: n.keys
      ensures Valid() && fresh(nodes - old(nodes)) && (forall n :: n in nodes - old(nodes) ==> fresh(n.keys))
      ensures res == if key in old(Keys()) then -1 else 0
      ensures res == -1 ==> Keys() == old(Keys())
      ensures res == 0 ==> 0 <= r <= |old(Keys())| && Keys() == Inserted(old(Keys()), r, key)
      ensures Contents() == old(Contents()) + {key} && (old(Strict(Keys())) ==> Strict(Keys()))
      ensures res == 0 && old(root) == null ==> root != null && nodes == {root}
      ensures old(root) != null && old(forall n :: n in nodes ==> |n.items| < k) ==> nodes == old(nodes)
    {
      hide Tree, Windows, Flat, Inorder, Inserted, Answer, Strict, Ascending;
      ghost var q := Keys();
      var found, cur;
      ghost var at;
      found, cur, at := Lookup(key);
      if found {
        return -1, 0;
      }
      if root != null { SideFull(nodes, k, shape, key, cur, at); }
      r := InsertPlaceful(cur, key, false, at);
      res := 0;
      InsertedSet(q, r, key);
      KeysAscending();
      if Strict(q) { InsertedStrict(q, r, key); }
    }

    /** Fewest keys a node keeps without being refilled. */
    function MinEntries(): int { k - k / 4 }

    /** `Valid()`, but `e` may have run out of keys. */
    ghost predicate Loose(e: TNode)
      reads this, nodes, set n | n in nodes :: n.keys
    {
      k >= 2 && root == Root(shape) && e in nodes && Part(Snap(nodes), shape, e) && Windows(nodes, k)
    }

    /** The key in room `idx` of `x` goes. */
    method TakeKey(x: TNode, idx: int, ghost at: Spot) returns (ghost r: int)
      requires Valid() && x in nodes && Sits(shape, x, at) && x.minIdx <= idx <= x.maxIdx
      modifies x`minIdx, x`maxIdx, x`items, x.keys
      ensures Loose(x) && x.NumKeys() < k && 0 <= r < |old(Keys())| && old(Keys())[r] == old(x.items[idx - x.minIdx])
      ensures Keys() == Removed(old(Keys()), r)
      ensures KeysOnly(old(Snap(nodes)), Snap(nodes), {x}) && |x.items| == |old(x.items)| - 1
    {
      hide Tree, Part, Windows, Sits, Flat, Inorder, Removed, Rank, KeysOnly;
      ghost var m, p := Snap(nodes), idx - x.minIdx;
      OneWindow(nodes, k, x);
      RemoveKey(nodes, k, x, idx);
      OneWindow(nodes, k, x);
      TakeTree(m, Snap(nodes), shape, x, at, p);
      r := Rank(m, at, p);
    }

    /** An internal node takes the smallest key of its successor. */
    method BorrowNext(x: TNode, ghost at: Spot) returns (y: TNode, ghost sy: Spot)
      requires Loose(x) && Sits(shape, x, at) && at.r.Node? && x.NumKeys() < k
      modifies nodes`minIdx, nodes`maxIdx, nodes`items, x.keys
      ensures Loose(y) && Keys() == old(Keys()) && Sits(shape, y, sy) && sy.l.Nil?
      ensures y == x.successor && y in nodes && x.successor == old(x.successor)
      ensures KeyLent(old(Snap(nodes)), Snap(nodes), x, y)
    {
      hide Part, Windows, Sits, Flat, Inorder, KeysOnly, RowL, RowR, Bare, LeftmostNode, LeftmostSpot;
      ghost var m := Snap(nodes);
      LooseParts(m, shape, x);
      NextSpot(m, shape, x, at);
      y := x.successor;
      sy := LeftmostSpot(InRight(at.l, x, at.c), at.r);
      Borrow(nodes, k, x, y);
      Borrowed(m[x].items, m[y].items);
      PairTree(m, Snap(nodes), shape, RowL(at.c, at.l), x, y, RowR(sy.c, sy.r), x, y);
      assert m[y].items[..1] == [m[y].items[0]];
    }

    /** The only child of a half-leaf. */
    ghost function OnlyChild(t: TNode): TNode?
      reads t
    {
      if t.left != null then t.left else t.right
    }

    /** A half-leaf and its child do not fit into one node. */
    ghost predicate Unmergeable(t: TNode)
      reads this, t, nodes
    {
      OnlyChild(t) != null ==> OnlyChild(t) in nodes && |t.items| + |OnlyChild(t).items| > k
    }

    /** A half-leaf takes all keys of its only child, if they fit. */
    method MergeChild(t: TNode, ghost at: Spot) returns (n: TNode, merged: bool, ghost an: Spot)
      requires Loose(t) && Sits(shape, t, at) && (at.l.Nil? <==> !at.r.Nil?)
      modifies nodes`minIdx, nodes`maxIdx, nodes`items, t.keys
      ensures Keys() == old(Keys())
      ensures merged ==> Loose(n) && Sits(shape, n, an) && LeafSpot(an) && n.items == []
      ensures !merged ==> Valid() && Snap(nodes) == old(Snap(nodes)) && Unmergeable(t)
    {
      hide Tree, Part, Windows, Sits, Flat, Inorder, KeysOnly, RowL, RowR, Bare, ChildSpot;
      ghost var m := Snap(nodes);
      LooseParts(m, shape, t);
      HalfLeaf(m, shape, t, at);
      n := if t.left != null then t.left else t.right;
      an := ChildSpot(t, at);
      OneWindow(nodes, k, n);
      OneWindow(nodes, k, t);
      if n.NumKeys() > k - t.NumKeys() {
        PartWhole(m, shape, t);
        return n, false, an;
      }
      merged := true;
      Merge(nodes, k, t, n);
      MergeTree(m, Snap(nodes), shape, t, at, n);
      ChildSpotLeaf(t, at);
    }

    /** The empty leaf `t` leaves the tree. */
    method DropLeaf(t: TNode, ghost at: Spot)
      requires Loose(t) && Sits(shape, t, at) && LeafSpot(at) && t.items == []
      modifies this`root, this`nodes, this`shape, nodes, set n | n in nodes :: n.keys
      ensures Valid() && nodes == old(nodes) - {t} && Keys() == old(Keys())
    {
      hide Tree, Part, Windows, Flat, Inorder, Bare, Removable;
      ghost var m := Snap(nodes);
      LooseParts(m, shape, t);
      SpotParent(m, shape, t, at);
      if t.parent == null {
        OnlyLeaf(m, shape, t, at);
        FewerWindows(nodes, t, k);
        root, nodes, shape := null, nodes - {t}, Nil;
        assert nodes == {} && Snap(nodes) == map[];
        EmptyTree();
        return;
      }
      PartRemovable(m, t, at.c);
      var root';
      ghost var s';
      root', s' := RemoveLeaf(nodes, k, root, t, at.c);
      ghost var ns := nodes - {t};
      BareTree(Snap(ns), s');
      root, nodes, shape := root', ns, s';
    }

    /** Refills or removes `x`, which has lost a key. */
    method AfterRemoval(x: TNode, ghost at: Spot)
      requires Loose(x) && Sits(shape, x, at) && x.NumKeys() < k
      modifies this`root, this`nodes, this`shape, nodes, set n | n in nodes :: n.keys
      ensures Valid() && nodes <= old(nodes) && Keys() == old(Keys())
      ensures |old(x.items)| > k - k / 4 ==> nodes == old(nodes) && Snap(nodes) == old(Snap(nodes))
      ensures nodes == old(nodes) && |old(x.items)| <= k - k / 4 ==>
        if old(x.left != null && x.right != null) then
          && KeyLent(old(Snap(nodes)), Snap(nodes), x, old(x.successor))
          && x.successor != null && x.successor in nodes && Unmergeable(x.successor)
        else Snap(nodes) == old(Snap(nodes)) && Unmergeable(x)
    {
      hide Tree, Part, Windows, Flat, Inorder, Bare, Sits, LeafSpot;
      LooseParts(Snap(nodes), shape, x);
      SpotLinks(Snap(nodes), shape, x, at);
      OneWindow(nodes, k, x);
      if x.NumKeys() > MinEntries() {
        PartWhole(Snap(nodes), shape, x);
        return;
      }
      var t := x;
      ghost var st := at;
      if x.left != null && x.right != null {
        t, st := BorrowNext(x, at);
        LooseParts(Snap(nodes), shape, t);
        SpotLinks(Snap(nodes), shape, t, st);
        OneWindow(nodes, k, t);
        if t.NumKeys() != 0 && t.left == null && t.right == null {
          PartWhole(Snap(nodes), shape, t);
          return;
        }
      }
      ShrinkFrom(t, st);
    }

    /** Merges and removes where `t` leaves it possible. */
    method ShrinkFrom(t: TNode, ghost at: Spot)
      requires Loose(t) && Sits(shape, t, at) && (at.l.Nil? || at.r.Nil?)
      modifies this`root, this`nodes, this`shape, nodes, set n | n in nodes :: n.keys
      ensures Valid() && nodes <= old(nodes) && Keys() == old(Keys())
      ensures nodes == old(nodes) ==> Snap(nodes) == old(Snap(nodes)) && Unmergeable(t)
    {
      hide Tree, Part, Windows, Flat, Inorder, Bare, Sits;
      LooseParts(Snap(nodes), shape, t);
      SpotLinks(Snap(nodes), shape, t, at);
      OneWindow(nodes, k, t);
      var e := t;
      ghost var se := at;
      if !(t.left == null && t.right == null) {
        var merged;
        e, merged, se := MergeChild(t, at);
        if !merged { return; }
      }
      OneWindow(nodes, k, e);
      if e.NumKeys() != 0 {
        PartWhole(Snap(nodes), shape, e);
        return;
      }
      DropLeaf(e, se);
    }

    /**
     What a deletion from `x` leaves when no node goes.  A node that keeps more than three quarters
     of its rooms in use only loses the key.  Another inner node gets the first key of its successor
     for it, and a half-leaf among the two does not fit into one node with its leaf.
     */
    ghost predicate Settled(m: Fields, x: TNode)
      reads this, nodes
    {
      var m' := Snap(nodes);
      && x in m && x in m' && m[x].items != []
      && if |m[x].items| - 1 > k - k / 4 then KeysOnly(m, m', {x}) && |m'[x].items| == |m[x].items| - 1
         else if m[x].left == null || m[x].right == null then
           KeysOnly(m, m', {x}) && |m'[x].items| == |m[x].items| - 1 && Unmergeable(x)
         else
           var y := m[x].successor;
           && y != null && y in m && y in m' && m[y].items != [] && KeysOnly(m, m', {x, y})
           && |m'[x].items| == |m[x].items| && m'[x].items[|m[x].items| - 1] == m[y].items[0]
           && m'[y].items == m[y].items[1..] && Unmergeable(y)
    }

    /** Removes the key a lookup has found. */
    method DeletePlaceful(cur: Cursor, ghost key: int, ghost at: Spot) returns (ghost r: int)
      requires Valid() && root != null && Answer(nodes, k, shape, key, true, cur, at)
      modifies this`root, this`nodes, this`shape, nodes, set n | n in nodes :: n.keys
      ensures Valid() && nodes <= old(nodes)
      ensures 0 <= r < |old(Keys())| && old(Keys())[r] == key && Keys() == Removed(old(Keys()), r)
      ensures |old(cur.tnode.items)| - 1 > k - k / 4 ==> nodes == old(nodes)
      ensures nodes == old(nodes) ==> Settled(old(Snap(nodes)), cur.tnode)
    {
      hide Tree, Part, Windows, Flat, Inorder, Bare, Sits, Removed, KeysOnly, KeyLent, Unmergeable, Settled;
      ghost var m := Snap(nodes);
      OneWindow(nodes, k, cur.tnode);
      r := TakeKey(cur.tnode, cur.idx, at);
      OneWindow(nodes, k, cur.tnode);
      ghost var m1 := Snap(nodes);
      SameNode(m, m1, cur.tnode);
      AfterRemoval(cur.tnode, at);
      if nodes == old(nodes) { IsSettled(m, m1, cur.tnode); }
    }

    lemma {:induction false} SameNode(m: Fields, m1: Fields, x: TNode)
      requires KeysOnly(m, m1, {x}) && x in m
      ensures x in m1 && m1[x].left == m[x].left && m1[x].right == m[x].right && m1[x].successor == m[x].successor
      ensures m1.Keys == m.Keys
    {
    }

    lemma {:induction false} IsSettled(m: Fields, m1: Fields, x: TNode)
      requires x in m && x in nodes && KeysOnly(m, m1, {x}) && m[x].items != [] && x in m1
      requires |m1[x].items| == |m[x].items| - 1
      requires |m1[x].items| > k - k / 4 ==> Snap(nodes) == m1
      requires |m1[x].items| <= k - k / 4 ==>
        if m1[x].left != null && m1[x].right != null then
          && KeyLent(m1, Snap(nodes), x, m1[x].successor)
          && x.successor != null && x.successor in nodes && Unmergeable(x.successor)
        else Snap(nodes) == m1 && Unmergeable(x)
      ensures Settled(m, x)
    {
      hide Unmergeable;
      SameNode(m, m1, x);
      var m' := Snap(nodes);
      if |m1[x].items| <= k - k / 4 && m1[x].left != null && m1[x].right != null {
        LentKeys(m, m1, m', x, m1[x].successor);
      }
    }

    /** Tells whether the key was there; it no longer is. */
    method Delete(key: int) returns (found: bool, ghost r: int)
      requires Valid()
      modifies this, nodes, set n | n in nodes :: n.keys
      ensures Valid() && nodes <= old(nodes)
      ensures found <==> key in old(Keys())
      ensures !found ==> Keys() == old(Keys())
      ensures found ==> 0 <= r < |old(Keys())| && old(Keys())[r] == key && Keys() == Removed(old(Keys()), r)
      ensures old(Strict(Keys())) ==> Strict(Keys()) && Contents() == old(Contents()) - {key}
    {
      hide Tree, Windows, Flat, Inorder, Removed, Answer, Strict;
      ghost var q := Keys();
      var cur;
      ghost var at;
      found, cur, at := Lookup(key);
      r := 0;
      if !found { return; }
      FoundRoot(Snap(nodes), shape, key);
      r := DeletePlaceful(cur, key, at);
      if Strict(q) { RemovedSet(q, r); }
    }

    lemma {:induction false} KeysAscending()
      requires Valid()
      ensures Ascending(Keys())
    {
      hide Windows;
    }

    /** The node the in-order walk starts at. */
    method Leftmost() returns (n: TNode?)
      requires Valid()
      ensures root == null ==> n == null
      ensures root != null ==> n != null && n in nodes && OnRow(Snap(nodes), Inorder(shape), 0, n, 0, 0)
    {
      hide Tree, Windows, Inorder, Plug, OnRow;
      if root == null { return null; }
      n := root;
      ghost var c: TCtx, t := Top, shape;
      assert Plug(c, t) == shape by { PlugTop(shape); }
      DownLeft(Snap(nodes), shape, c, t);
      while n.left != null
        invariant t.Node? && n == t.n && n in nodes && n.left == Root(t.l)
        invariant Plug(c, t) == shape && shape.Node? && LeftmostNode(t) == LeftmostNode(shape)
        decreases t
      {
        DownLeft(Snap(nodes), shape, c, t);
        n := n.left;
        c, t := InLeft(c, t.n, t.r), t.l;
        DownLeft(Snap(nodes), shape, c, t);
      }
      DownLeft(Snap(nodes), shape, c, t);
      FirstOnRow(Snap(nodes), shape);
    }

    /** `cur` is on key number `i`, in the node number `j`. */
    ghost predicate OnKey(cur: Cursor, j: int, i: int)
      reads this, nodes
    {
      && cur.state == Tied && cur.side == Undef && cur.tnode != null && cur.tnode in nodes
      && OnRow(Snap(nodes), Inorder(shape), j, cur.tnode, cur.idx - cur.tnode.minIdx, i)
    }

    /** `cur` has run past the last key. */
    ghost predicate PastEnd(cur: Cursor)
      reads this, nodes
    {
      && cur.state == Pending && cur.tnode != null && cur.tnode in nodes && cur.tnode.minIdx <= cur.tnode.maxIdx
      && ((cur.side == Right && cur.tnode.minIdx <= cur.idx < cur.tnode.maxIdx)
          || (cur.side == Undef && cur.idx == cur.tnode.maxIdx + 1))
    }

    /** One step of the walk: 0 and on to the next key, or -1. */
    method CursorNext(cur: Cursor, ghost j: int, ghost i: int) returns (res: int, cur': Cursor, ghost j': int)
      requires Valid() && (cur.state != Untied ==> cur.tnode != null && cur.tnode in nodes)
      ensures cur.state == Untied ==> res == -1 && cur' == cur
      ensures OnKey(cur, j, i) ==> 0 <= i < |Keys()| && res == if i + 1 < |Keys()| then 0 else -1
      ensures OnKey(cur, j, i) ==> if res == 0 then OnKey(cur', j', i + 1) else PastEnd(cur')
      ensures PastEnd(cur) ==> res == -1 && cur' == cur
      ensures cur.state == Pending ==>
        && res == (if cur.side == Left || cur.idx < cur.tnode.minIdx || cur.idx == cur.tnode.maxIdx then 0 else -1)
        && cur' == (if res == -1 then cur
                    else if cur.side == Left || cur.idx < cur.tnode.minIdx then
                      Cursor(cur.tnode, cur.tnode.minIdx, Undef, Tied)
                    else cur.(state := Tied))
    {
      hide Tree, Windows, Inorder, Flat, OnRow;
      j' := j;
      if cur.state == Untied { return -1, cur, j'; }
      var x := cur.tnode;
      OneWindow(nodes, k, x);
      if cur.state == Pending {
        if cur.side == Left || cur.idx < x.minIdx {
          return 0, Cursor(x, x.minIdx, Undef, Tied), j';
        } else if cur.idx == x.maxIdx {
          return 0, cur.(state := Tied), j';
        }
        return -1, cur, j';
      }
      if cur.idx == x.maxIdx {
        if OnKey(cur, j, i) {
          StepThread(Snap(nodes), shape, j, x, cur.idx - x.minIdx, i);
        }
        if x.successor != null {
          assert OnKey(cur, j, i) ==> x.successor in nodes;
          j' := j + 1;
          return 0, Cursor(x.successor, x.successor.minIdx, Undef, Tied), j';
        }
        if x.NumKeys() == k {
          return -1, Cursor(x, FirstIdx(k), Right, Pending), j';
        }
        return -1, Cursor(x, cur.idx + 1, Undef, Pending), j';
      }
      if OnKey(cur, j, i) {
        StepInside(Snap(nodes), shape, j, x, cur.idx - x.minIdx, i);
      }
      return 0, Cursor(x, cur.idx + 1, Undef, Tied), j';
    }

    /** The next larger key is the last one of its node, and the node has no left child if it is the only one. */
    ghost predicate NextIsLast(key: int)
      reads this, nodes
    {
      exists j :: LastLarger(Snap(nodes), Inorder(shape), j, key)
    }

    /**
     A lookup and one step of the walk.  After a miss, with `i` smaller keys, the
     step reaches the next larger key exactly when the cursor of the lookup stands
     at the last key of its node; in all other cases it fails, even if there are
     larger keys.  Which case it is depends on the nodes only.
     */
    method SeekNext(key: int)
      returns (found: bool, res: int, cur': Cursor, ghost cur: Cursor, ghost at: Spot, ghost j: int, ghost i: int)
      requires Valid()
      ensures found <==> key in Keys()
      ensures if root == null then cur == Cursor(null, FirstIdx(k), Undef, Untied)
              else Answer(nodes, k, shape, key, found, cur, at)
      ensures 0 <= i <= |Keys()| && Below(Keys()[..i], key) && Above(Keys()[i..], key)
      ensures found ==> i < |Keys()| && Keys()[i] == key
      ensures found ==> res == (if i + 1 < |Keys()| then 0 else -1) && (res == 0 ==> OnKey(cur', j, i + 1))
      ensures !found ==> (res == 0 <==> cur.state == Pending && cur.tnode != null && cur.idx == cur.tnode.maxIdx)
      ensures !found ==> res == if NextIsLast(key) then 0 else -1
      ensures !found ==> if res == 0 then i < |Keys()| && OnKey(cur', j, i) else cur' == cur
    {
      hide Tree, Windows, Inorder, Flat, OnRow, Ascending, Found, Sits, LastLarger;
      var c;
      found, c, at := Lookup(key);
      cur := c;
      if root == null {
        EmptyKeys(Snap(nodes), shape, 0);
        NoneLast(Snap(nodes), shape, key);
        i, j := 0, 0;
        res, cur', j := CursorNext(c, 0, 0);
        return;
      }
      OneWindow(nodes, k, c.tnode);
      AnswerAt(nodes, k, shape, key, found, c, at);
      AtRange(Snap(nodes), at, c.tnode, Offset(c.tnode, c.idx, c.side), key);
      j, i := SpotOnRow(Snap(nodes), shape, c.tnode, at, Offset(c.tnode, c.idx, c.side));
      AtRank(Snap(nodes), shape, c.tnode, at, Offset(c.tnode, c.idx, c.side), key);
      if found { CursorKey(Snap(nodes), shape, j, c.tnode, c.idx - c.tnode.minIdx, i); }
      if !found { Reaches(nodes, k, shape, key, c, at); }
      ghost var j0 := j;
      res, cur', j := CursorNext(c, j, i);
      if !found { j := j0; }
    }

    /** The walk from the leftmost node's smallest key gives every key once, in ascending order. */
    method Walk() returns (out: seq<int>)
      requires Valid()
      ensures out == Keys() && Ascending(out)
    {
      hide Tree, Windows, Inorder, Flat, OnRow, Ascending;
      KeysAscending();
      var n := Leftmost();
      if n == null {
        EmptyKeys(Snap(nodes), shape, 0);
        return [];
      }
      var cur, res := Cursor(n, n.minIdx, Undef, Tied), 0;
      ghost var j, i := 0, 0;
      StepInside(Snap(nodes), shape, j, n, 0, 0);
      out := [];
      while res == 0
        invariant 0 <= i <= |Keys()| && out == Keys()[..i]
        invariant if res == 0 then OnKey(cur, j, i) && i < |Keys()| else i == |Keys()|
        decreases |Keys()| - i
      {
        CursorKey(Snap(nodes), shape, j, cur.tnode, cur.idx - cur.tnode.minIdx, i);
        OneWindow(nodes, k, cur.tnode);
        out := out + [cur.tnode.keys[cur.idx]];
        res, cur, j := CursorNext(cur, j, i);
        i := i + 1;
      }
    }
  }

  /** A key goes from `x`, and the first one of `y` comes to it. */
  lemma {:induction false} LentKeys(m: Fields, m1: Fields, m': Fields, x: TNode, y: TNode?)
    requires KeysOnly(m, m1, {x}) && KeyLent(m1, m', x, y) && x in m && x != y
    requires m[x].items != [] && |m1[x].items| == |m[x].items| - 1
    ensures y != null && y in m && y in m' && x in m' && m[y].items != [] && KeysOnly(m, m', {x, y})
    ensures |m'[x].items| == |m[x].items| && m'[x].items[|m[x].items| - 1] == m[y].items[0]
    ensures m'[y].items == m[y].items[1..] && m'[x].successor == m1[x].successor
  {
  }

  lemma {:induction false} SideFull(ns: set<TNode>, k: int, s: TShape, key: int, cur: Cursor, at: Spot)
    requires Answer(ns, k, s, key, false, cur, at)
    ensures cur.tnode != null && cur.tnode in ns && (cur.side != Undef ==> |cur.tnode.items| == k)
  {
  }

  lemma {:induction false} NoneLast(m: Fields, s: TShape, key: int)
    requires Root(s) == null
    ensures forall j :: !LastLarger(m, Inorder(s), j, key)
  {
  }

  lemma {:induction false} EmptyKeys(m: Fields, s: TShape, key: int)
    requires Root(s) == null
    ensures Flat(m, Inorder(s)) == [] && Inserted(Flat(m, Inorder(s)), 0, key) == [key]
  {
    assert Inorder(s) == [];
  }

  lemma {:induction false} AtRange(m: Fields, at: Spot, x: TNode, p: int, key: int)
    requires At(m, at.c, at.l, x, at.r, p, key)
    ensures x in m && 0 <= p <= |m[x].items|
  {
  }

  lemma {:induction false} InsertedSet(q: seq<int>, r: int, key: int)
    requires 0 <= r <= |q|
    ensures (set x | x in Inserted(q, r, key)) == (set x | x in q) + {key}
  {
    var i := Inserted(q, r, key);
    forall x ensures x in i <==> x in q || x == key {
      if x in q {
        var j :| 0 <= j < |q| && q[j] == x;
        assert i[if j < r then j else j + 1] == x;
      }
      assert i[r] == key;
    }
  }

  lemma {:induction false} InsertedStrict(q: seq<int>, r: int, key: int)
    requires Strict(q) && 0 <= r <= |q| && key !in q && Ascending(Inserted(q, r, key))
    ensures Strict(Inserted(q, r, key))
  {
    var d := Inserted(q, r, key);
    forall i, j | 0 <= i < j < |d| ensures d[i] < d[j] {
      assert d[i] == if i < r then q[i] else if i == r then key else q[i - 1];
      assert d[j] == if j < r then q[j] else if j == r then key else q[j - 1];
    }
  }

  /** Where a lookup has stopped, the key keeps the order. */
  lemma {:induction false} AnswerAt(ns: set<TNode>, k: int, s: TShape, key: int, found: bool, cur: Cursor, at: Spot)
    requires Windows(ns, k) && Tree(Snap(ns), s) && Answer(ns, k, s, key, found, cur, at)
    ensures var x, p := cur.tnode, Offset(cur.tnode, cur.idx, cur.side);
      && Sits(s, x, at) && At(Snap(ns), at.c, at.l, x, at.r, p, key)
      && (cur.side == Undef ==> |x.items| < k || 0 <= p < |x.items|)
      && (cur.side == Left ==> at.l.Nil? && p == 0) && (cur.side == Right ==> at.r.Nil? && p == |x.items|)
      && (found ==> 0 <= p < |x.items| && x.items[p] == key)
  {
    hide Tree, Windows, Sits, Flat, Inorder, Plug;
    var x, p := cur.tnode, Offset(cur.tnode, cur.idx, cur.side);
    if found {
      OneWindow(ns, k, x);
      FoundAt(Snap(ns), s, x, at, p, key);
    } else {
      GapAt(Snap(ns), at.c, at.l, x, at.r, p, key);
    }
  }

  lemma {:induction false} FoundAt(m: Fields, s: TShape, x: TNode, at: Spot, p: int, key: int)
    requires Tree(m, s) && Sits(s, x, at) && x in m && 0 <= p < |m[x].items| && m[x].items[p] == key
    ensures At(m, at.c, at.l, x, at.r, p, key)
  {
    hide Tree, Flat, Inorder;
    NodeOrder(m, at.c, at.l, x, at.r);
  }

  /** Where a place in a node stands among all keys. */
  lemma {:induction false} SpotOnRow(m: Fields, s: TShape, x: TNode, at: Spot, p: int) returns (j: int, i: int)
    requires Sits(s, x, at) && x in m && 0 <= p <= |m[x].items|
    ensures i == Rank(m, at, p) && 0 <= i <= |Flat(m, Inorder(s))|
    ensures p < |m[x].items| ==> OnRow(m, Inorder(s), j, x, p, i) && i < |Flat(m, Inorder(s))|
  {
    hide Flat, Inorder;
    j, i := |RowL(at.c, at.l)|, Rank(m, at, p);
    NodeRow(m, at.c, at.l, x, at.r);
    assert Inorder(s)[..j] == RowL(at.c, at.l);
  }

  lemma {:induction false} BehindNode(m: Fields, s: TShape, x: TNode, at: Spot, last: int)
    requires Sits(s, x, at) && x in m
    ensures var b := Rank(m, at, |m[x].items|);
      && 0 <= b <= |Flat(m, Inorder(s))|
      && Inserted(Flat(m, Inorder(s)), b, last)
         == Flat(m, RowL(at.c, at.l)) + m[x].items + [last] + Flat(m, RowR(at.c, at.r))
  {
    NodeRow(m, at.c, at.l, x, at.r);
    var a, i, b := Flat(m, RowL(at.c, at.l)), m[x].items, Flat(m, RowR(at.c, at.r));
    InsertedParts(a, i, b, |i|, last);
    assert i[..|i|] + [last] + i[|i|..] == i + [last];
    Tail(a, i, [last]);
  }

  lemma {:induction false} MaybePassOn(m: Fields, s: TShape, x: TNode, at: Spot, last: int)
    requires Tree(m, s) && Sits(s, x, at) && x in m && At(m, at.c, at.l, x, at.r, |m[x].items|, last)
    ensures at.r.Node? ==> m[x].successor != null
  {
    if at.r.Node? {
      PassOn(m, s, x, at, last);
    }
  }

  lemma {:induction false} EmptyTree()
    ensures Tree(map[], Nil) && Windows({}, 2) && Flat(map[], Inorder<TNode>(Nil)) == []
  {
    var s: TShape := Nil;
    assert Inorder(s) == [] && Nodes(s) == {};
  }

  lemma {:induction false} OneNodeTree(m: Fields, n: TNode, key: int)
    requires m == map[n := Rec(null, null, null, Undef, 0, null, [key])]
    ensures Tree(m, Node(Nil, n, Nil)) && Flat(m, Inorder(Node(Nil, n, Nil))) == [key]
  {
    LeafFacts(n);
    FlatOne(m, n);
    var s := Node(Nil, n, Nil);
    assert Linked(m, s, null, Undef) && Bal(m, s);
  }

  lemma {:induction false} LooseParts(m: Fields, s: TShape, e: TNode)
    requires Part(m, s, e)
    ensures Bare(m, s) && FilledBut(m, e) && Ascending(Flat(m, Inorder(s)))
  {
    hide Bare, FilledBut, Ascending, Flat, Inorder;
  }

  lemma {:induction false} Borrowed(a: seq<int>, b: seq<int>)
    requires b != []
    ensures (a + b[..1]) + b[1..] == a + b && a + b[..1] != []
  {
  }

  lemma {:induction false} ChildSpotLeaf(t: TNode, at: Spot)
    ensures LeafSpot(ChildSpot(t, at))
  {
  }

  lemma {:induction false} SpotParent(m: Fields, s: TShape, t: TNode, at: Spot)
    requires Bare(m, s) && Sits(s, t, at)
    ensures t in m && m[t].parent == CtxParent(at.c) && Root(s) != null
  {
    PlugLinked(m, at.c, Node(at.l, t, at.r));
    PlugRoot(at.c, Node(at.l, t, at.r), Node(at.l, t, at.r));
  }

  lemma {:induction false} OnlyLeaf(m: Fields, s: TShape, t: TNode, at: Spot)
    requires Bare(m, s) && Sits(s, t, at) && LeafSpot(at) && CtxParent(at.c) == null && t in m && m[t].items == []
    ensures at.c.Top? && m.Keys == {t} && Flat(m, Inorder(s)) == []
  {
    LeafFacts(t);
    FlatOne(m, t);
  }

  lemma {:induction false} PartRemovable(m: Fields, t: TNode, c: TCtx)
    requires Part(m, Plug(c, Node(Nil, t, Nil)), t) && CtxParent(c) != null && t in m && m[t].items == []
    ensures Removable(m, c, t)
  {
  }

  lemma {:induction false} BareTree(m: Fields, s: TShape)
    requires Bare(m, s) && Filled(m) && Ascending(Flat(m, Inorder(s)))
    ensures Tree(m, s)
  {
  }

  lemma {:induction false} SpotLinks(m: Fields, s: TShape, t: TNode, at: Spot)
    requires Bare(m, s) && Sits(s, t, at)
    ensures t in m && m[t].left == Root(at.l) && m[t].right == Root(at.r)
    ensures (m[t].left == null <==> at.l.Nil?) && (m[t].right == null <==> at.r.Nil?)
    ensures m[t].left == null && m[t].right == null ==> LeafSpot(at)
  {
    PlugLinked(m, at.c, Node(at.l, t, at.r));
  }

  lemma {:induction false} FoundRoot(m: Fields, s: TShape, key: int)
    requires key in Flat(m, Inorder(s))
    ensures Root(s) != null
  {
  }

  lemma {:induction false} RemovedSet(q: seq<int>, r: int)
    requires Strict(q) && 0 <= r < |q|
    ensures (set x | x in Removed(q, r)) == (set x | x in q) - {q[r]} && Strict(Removed(q, r))
  {
    var d := Removed(q, r);
    forall x ensures x in d <==> x in q && x != q[r] {
      if x in q && x != q[r] {
        var j :| 0 <= j < |q| && q[j] == x;
        assert d[if j < r then j else j - 1] == x;
      }
    }
  }

  lemma {:induction false} PlugTop(s: TShape)
    ensures Plug(Top, s) == s
  {
  }

  lemma {:induction false} CursorKey(m: Fields, s: TShape, j: int, x: TNode, p: int, i: int)
    requires OnRow(m, Inorder(s), j, x, p, i)
    ensures x in m && 0 <= p < |m[x].items| && 0 <= i < |Flat(m, Inorder(s))| && Flat(m, Inorder(s))[i] == m[x].items[p]
  {
    hide Flat, Inorder;
    OnRowKey(m, Inorder(s), j, x, p, i);
  }

  lemma {:induction false} StepInside(m: Fields, s: TShape, j: int, x: TNode, p: int, i: int)
    requires OnRow(m, Inorder(s), j, x, p, i)
    ensures x in m && 0 <= p < |m[x].items| && 0 <= i < |Flat(m, Inorder(s))|
    ensures p + 1 < |m[x].items| ==> OnRow(m, Inorder(s), j, x, p + 1, i + 1) && i + 1 < |Flat(m, Inorder(s))|
  {
    hide Flat, Inorder;
    OnRowKey(m, Inorder(s), j, x, p, i);
    if p + 1 < |m[x].items| { OnRowKey(m, Inorder(s), j, x, p + 1, i + 1); }
  }

  lemma {:induction false} StepThread(m: Fields, s: TShape, j: int, x: TNode, p: int, i: int)
    requires Tree(m, s) && OnRow(m, Inorder(s), j, x, p, i) && x in m && p == |m[x].items| - 1
    ensures 0 <= p && 0 <= i < |Flat(m, Inorder(s))|
    ensures m[x].successor == null ==> i + 1 == |Flat(m, Inorder(s))|
    ensures m[x].successor != null ==> m[x].successor in m && OnRow(m, Inorder(s), j + 1, m[x].successor, 0, i + 1)
    ensures m[x].successor != null ==> i + 1 < |Flat(m, Inorder(s))|
  {
    hide Flat, Inorder, Linked, Bal, Disj, Ascending;
    OnRowKey(m, Inorder(s), j, x, p, i);
    NextOnRow(m, Inorder(s), j, x, p, i);
    if m[x].successor != null { OnRowKey(m, Inorder(s), j + 1, m[x].successor, 0, i + 1); }
  }
}
