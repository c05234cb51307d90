/**
 One T*-tree node: a fixed array of key rooms of which a contiguous window
 [minIdx, maxIdx] is in use (include/ds/ttree.h, kernel/ds/ttree.c).
 */
module TNodes {

  /** TNODE_LEFT, TNODE_RIGHT and the common value -1 of TNODE_ROOT and TNODE_BOUND. */
  datatype Side = Left | Right | Undef

  function Opposite(s: Side): Side
    requires s != Undef
  {
    if s == Left then Right else Left
  }

  /** Moves rooms lo..hi-1 one room up, last first. */
  method ShiftUp(a: array<int>, lo: int, hi: int)
    requires 0 <= lo <= hi < a.Length
    modifies a
    ensures forall j :: lo < j <= hi ==> a[j] == old(a[j - 1])
    ensures forall j :: 0 <= j <= lo || hi < j < a.Length ==> a[j] == old(a[j])
  {
    var i := hi;
    while i > lo
      invariant lo <= i <= hi
      invariant forall j :: i < j <= hi ==> a[j] == old(a[j - 1])
      invariant forall j :: 0 <= j <= i || hi < j < a.Length ==> a[j] == old(a[j])
    {
      a[i] := a[i - 1];
      i := i - 1;
    }
  }

  /** Moves rooms lo+1..hi one room down, first first. */
  method ShiftDown(a: array<int>, lo: int, hi: int)
    requires 0 <= lo <= hi < a.Length
    modifies a
    ensures forall j :: lo <= j < hi ==> a[j] == old(a[j + 1])
    ensures forall j :: 0 <= j < lo || hi <= j < a.Length ==> a[j] == old(a[j])
  {
    var i := lo;
    while i < hi
      invariant lo <= i <= hi
      invariant forall j :: lo <= j < i ==> a[j] == old(a[j + 1])
      invariant forall j :: 0 <= j < lo || i <= j < a.Length ==> a[j] == old(a[j])
    {
      a[i] := a[i + 1];
      i := i + 1;
    }
  }

  /** Rooms idx..hi moved one up: the window has a gap at idx. */
  lemma {:induction false} GapAbove(was: seq<int>, now: seq<int>, lo: int, idx: int, hi: int)
    requires |now| == |was| && 0 <= lo <= idx <= hi + 1 < |was|
    requires forall j :: 0 <= j < idx ==> now[j] == was[j]
    requires forall j :: idx < j <= hi + 1 ==> now[j] == was[j - 1]
    ensures now[lo..idx] == was[lo..hi + 1][..idx - lo] && now[idx + 1..hi + 2] == was[lo..hi + 1][idx - lo..]
  {
  }

  /** Rooms lo..idx-1 moved one down: the window has a gap at idx-1. */
  lemma {:induction false} GapBelow(was: seq<int>, now: seq<int>, lo: int, idx: int, hi: int)
    requires |now| == |was| && 0 < lo <= idx <= hi + 1 <= |was|
    requires forall j :: lo - 1 <= j < idx - 1 ==> now[j] == was[j + 1]
    requires forall j :: idx <= j < |was| ==> now[j] == was[j]
    ensures now[lo - 1..idx - 1] == was[lo..hi + 1][..idx - lo] && now[idx..hi + 1] == was[lo..hi + 1][idx - lo..]
  {
  }

  /** Rooms idx+1..hi moved one down: the key that was in room idx is gone. */
  lemma {:induction false} ClosedAbove(was: seq<int>, now: seq<int>, lo: int, idx: int, hi: int)
    requires |now| == |was| && 0 <= lo <= idx <= hi < |was|
    requires forall j :: 0 <= j < idx ==> now[j] == was[j]
    requires forall j :: idx <= j < hi ==> now[j] == was[j + 1]
    ensures now[lo..hi] == was[lo..hi + 1][..idx - lo] + was[lo..hi + 1][idx - lo + 1..]
  {
  }

  /** Rooms lo..idx-1 moved one up: the key that was in room idx is gone. */
  lemma {:induction false} ClosedBelow(was: seq<int>, now: seq<int>, lo: int, idx: int, hi: int)
    requires |now| == |was| && 0 <= lo <= idx <= hi < |was|
    requires forall j :: lo < j <= idx ==> now[j] == was[j - 1]
    requires forall j :: idx < j < |was| ==> now[j] == was[j]
    ensures now[lo + 1..hi + 1] == was[lo..hi + 1][..idx - lo] + was[lo..hi + 1][idx - lo + 1..]
  {
  }

  lemma {:induction false} EndsWith(s: seq<int>, lo: int, hi: int, q: seq<int>, it: seq<int>)
    requires 0 <= lo <= hi < |s| && s[lo..hi] == q && it == [s[hi]]
    ensures s[lo..hi + 1] == q + it
  {
  }

  /** memcpy between two nodes' arrays. */
  method CopyRooms(src: array<int>, from: int, dst: array<int>, to: int, count: int)
    requires src != dst
    requires 0 <= from && 0 <= to && 0 <= count && from + count <= src.Length && to + count <= dst.Length
    modifies dst
    ensures dst[to..to + count] == src[from..from + count]
    ensures dst[..to] == old(dst[..to]) && dst[to + count..] == old(dst[to + count..])
  {
    var i := 0;
    while i < count
      invariant 0 <= i <= count
      invariant forall j :: to <= j < to + i ==> dst[j] == src[j - to + from]
      invariant forall j :: 0 <= j < to || to + i <= j < dst.Length ==> dst[j] == old(dst[j])
    {
      dst[to + i] := src[from + i];
      i := i + 1;
    }
  }

  lemma {:induction false} Adjoin(s: seq<int>, lo: int, mid: int, hi: int, a: seq<int>, b: seq<int>)
    requires 0 <= lo <= mid <= hi <= |s| && s[lo..mid] == a && s[mid..hi] == b
    ensures s[lo..hi] == a + b
  {
  }

  lemma {:induction false} KeptBefore(was: seq<int>, now: seq<int>, lo: int, hi: int)
    requires 0 <= lo <= hi <= |was| && |now| == |was| && now[..hi] == was[..hi]
    ensures now[lo..hi] == was[lo..hi]
  {
    assert now[lo..hi] == now[..hi][lo..] && was[lo..hi] == was[..hi][lo..];
  }

  lemma {:induction false} KeptBehind(was: seq<int>, now: seq<int>, lo: int, hi: int)
    requires 0 <= lo <= hi <= |was| && |now| == |was| && now[lo..] == was[lo..]
    ensures now[lo..hi] == was[lo..hi]
  {
    assert now[lo..hi] == now[lo..][..hi - lo] && was[lo..hi] == was[lo..][..hi - lo];
  }

  /** Moves `count` rooms from `from` to the lower room `to`, first first. */
  method MoveDown(a: array<int>, from: int, to: int, count: int)
    requires 0 <= to <= from && 0 <= count && from + count <= a.Length
    modifies a
    ensures a[to..to + count] == old(a[from..from + count])
  {
    var i := 0;
    while i < count
      invariant 0 <= i <= count
      invariant forall j :: to <= j < to + i ==> a[j] == old(a[j - to + from])
      invariant forall j :: to + i <= j < a.Length ==> a[j] == old(a[j])
    {
      a[to + i] := a[from + i];
      i := i + 1;
    }
  }

  /** Moves `count` rooms from `from` to the higher room `to`, last first. */
  method MoveUp(a: array<int>, from: int, to: int, count: int)
    requires 0 <= from <= to && 0 <= count && to + count <= a.Length
    modifies a
    ensures a[to..to + count] == old(a[from..from + count])
  {
    var i := count;
    while i > 0
      invariant 0 <= i <= count
      invariant forall j :: to + i <= j < to + count ==> a[j] == old(a[j - to + from])
      invariant forall j :: 0 <= j < to + i ==> a[j] == old(a[j])
    {
      i := i - 1;
      a[to + i] := a[from + i];
    }
  }

  lemma {:induction false} Shorter(it: seq<int>, n: int, p: int)
    requires 0 <= p <= n <= |it|
    ensures it[..n][..p] == it[..p] && it[..n][p..] == it[p..n]
  {
  }

  lemma {:induction false} AtEnd(it: seq<int>, key: int, yit: seq<int>)
    requires yit != [] && yit[0] == key
    ensures it[..|it|] + [key] + it[|it|..] == it + yit[..1]
  {
    assert it[..|it|] == it && it[|it|..] == [] && yit[..1] == [key];
  }

  /** Room of the only key of a node with one key. */
  function FirstIdx(k: int): int { k / 2 - 1 }

  class TNode {
    var parent: TNode?
    var successor: TNode?
    var left: TNode?
    var right: TNode?
    var minIdx: int
    var maxIdx: int
    var bfc: int
    var side: Side
    const keys: array<int>
    /** The keys in the window, in order. */
    ghost var items: seq<int>

    /** The window lies in the array and shows `items`; it may be empty. */
    ghost predicate Window(k: int)
      reads this`minIdx, this`maxIdx, this`items, keys
    {
      && keys.Length == k
      && 0 <= minIdx <= maxIdx + 1 <= k
      && items == keys[minIdx..maxIdx + 1]
    }

    /** A node with one key in the room `at`, as the two creation sites of the source build it. */
    constructor (k: int, at: int, key: int)
      requires 0 <= at < k
      ensures Window(k) && items == [key]
      ensures minIdx == maxIdx == at
      ensures parent == null && successor == null && left == null && right == null
      ensures bfc == 0 && side == Undef
      ensures fresh(keys)
    {
      keys := new int[k];
      minIdx, maxIdx, bfc, side := at, at, 0, Undef;
      parent, successor, left, right := null, null, null, null;
      items := [key];
      new;
      keys[at] := key;
    }

    function NumKeys(): int
      reads this`minIdx, this`maxIdx
    {
      maxIdx - minIdx + 1
    }

    function Child(s: Side): TNode?
      requires s != Undef
      reads this`left, this`right
    {
      if s == Left then left else right
    }

    method SetChild(s: Side, c: TNode?)
      requires s != Undef
      modifies this`left, this`right
      ensures Child(s) == c && Child(Opposite(s)) == old(Child(Opposite(s)))
    {
      if s == Left { left := c; } else { right := c; }
    }

    /**
     Opens room `idx` for a new key.  The window grows towards the side of the array with more
     free rooms; `at` is where the room ended up.
     */
    method IncreaseWindow(k: int, idx: int) returns (at: int)
      requires Window(k) && NumKeys() < k
      requires minIdx <= idx <= maxIdx + 1
      modifies this`minIdx, this`maxIdx, keys
      ensures 0 <= minIdx <= at <= maxIdx < k
      ensures keys[minIdx..at] == items[..idx - old(minIdx)]
      ensures keys[at + 1..maxIdx + 1] == items[idx - old(minIdx)..]
    {
      ghost var was, lo, hi := keys[..], minIdx, maxIdx;
      if k - 1 - maxIdx > minIdx {
        // the copy into room idx itself is left out: the caller overwrites that room
        at := idx;
        maxIdx := maxIdx + 1;
        ShiftUp(keys, idx, maxIdx);
        GapAbove(was, keys[..], lo, idx, hi);
      } else {
        at := idx - 1;
        minIdx := minIdx - 1;
        ShiftDown(keys, minIdx, at);
        GapBelow(was, keys[..], lo, idx, hi);
      }
    }

    /** Opens a room at `idx` and puts `key` into it. */
    method InsertAt(k: int, idx: int, key: int)
      requires Window(k) && NumKeys() < k
      requires minIdx <= idx <= maxIdx + 1
      modifies this`minIdx, this`maxIdx, this`items, keys
      ensures Window(k)
      ensures items == old(items[..idx - minIdx] + [key] + items[idx - minIdx..])
    {
      ghost var p := idx - minIdx;
      var at := IncreaseWindow(k, idx);
      keys[at] := key;
      assert keys[minIdx..at] == items[..p];
      assert keys[at + 1..maxIdx + 1] == items[p..];
      items := items[..p] + [key] + items[p..];
      assert keys[minIdx..maxIdx + 1] == keys[minIdx..at] + [keys[at]] + keys[at + 1..maxIdx + 1];
    }

    /** Closes room `idx`; the side of the array with fewer free rooms gains one. */
    method DecreaseWindow(k: int, idx: int)
      requires Window(k)
      requires minIdx <= idx <= maxIdx
      modifies this`minIdx, this`maxIdx, this`items, keys
      ensures Window(k)
      ensures items == old(items[..idx - minIdx] + items[idx - minIdx + 1..])
    {
      ghost var was, lo, hi := keys[..], minIdx, maxIdx;
      if k - 1 - maxIdx <= minIdx {
        maxIdx := maxIdx - 1;
        ShiftDown(keys, idx, maxIdx + 1);
        ClosedAbove(was, keys[..], lo, idx, hi);
      } else {
        minIdx := minIdx + 1;
        ShiftUp(keys, minIdx - 1, idx);
        ClosedBelow(was, keys[..], lo, idx, hi);
      }
      items := items[..idx - lo] + items[idx - lo + 1..];
    }

    /** Takes the largest key out of the window, as `keys[max_idx--]` does. */
    method TakeMax(k: int) returns (key: int)
      requires Window(k) && items != []
      modifies this`maxIdx, this`items
      ensures Window(k)
      ensures key == old(items[|items| - 1]) && items == old(items[..|items| - 1])
    {
      key := keys[maxIdx];
      maxIdx := maxIdx - 1;
      items := items[..|items| - 1];
    }

    /** Takes the smallest key out of the window, as `keys[min_idx++]` does. */
    method TakeMin(k: int) returns (key: int)
      requires Window(k) && items != []
      modifies this`minIdx, this`items
      ensures Window(k)
      ensures key == old(items[0]) && items == old(items[1..])
    {
      key := keys[minIdx];
      minIdx := minIdx + 1;
      items := items[1..];
    }

    /** Takes the largest key out of a full window and puts `key` into room `idx`. */
    method SwapMax(k: int, idx: int, key: int) returns (last: int)
      requires Window(k) && NumKeys() == k && k >= 1 && minIdx <= idx <= maxIdx
      modifies this`minIdx, this`maxIdx, this`items, keys
      ensures Window(k) && last == old(items[k - 1])
      ensures items == old(items[..idx - minIdx] + [key] + items[idx - minIdx..k - 1])
    {
      ghost var it, p := items, idx - minIdx;
      last := TakeMax(k);
      InsertAt(k, idx, key);
      Shorter(it, k - 1, p);
    }

    /** The smallest key of `y` moves to the end of this window. */
    method BorrowFrom(k: int, y: TNode)
      requires Window(k) && y.Window(k) && y != this && y.keys != keys && NumKeys() < k && y.items != []
      modifies this`minIdx, this`maxIdx, this`items, keys, y`minIdx, y`items
      ensures Window(k) && y.Window(k)
      ensures items == old(items + y.items[..1]) && y.items == old(y.items[1..])
    {
      ghost var it, yit := items, y.items;
      var at := maxIdx + 1;
      var key := y.TakeMin(k);
      InsertAt(k, at, key);
      AtEnd(it, key, yit);
    }

    /** Moves the window down, if need be, so that `count` rooms behind it are free. */
    method RoomBehind(k: int, count: int)
      requires Window(k) && 0 <= count && |items| + count <= k
      modifies this`minIdx, this`maxIdx, keys
      ensures Window(k) && maxIdx + count < k
    {
      var diff := k - maxIdx - count - 1;
      if diff < 0 {
        MoveDown(keys, minIdx, minIdx + diff, NumKeys());
        minIdx, maxIdx := minIdx + diff, maxIdx + diff;
      }
    }

    /** Moves the window up, if need be, so that `count` rooms before it are free. */
    method RoomBefore(k: int, count: int)
      requires Window(k) && 0 <= count && |items| + count <= k
      modifies this`minIdx, this`maxIdx, keys
      ensures Window(k) && minIdx >= count
    {
      var diff := minIdx - count;
      if diff < 0 {
        MoveUp(keys, minIdx, minIdx - diff, NumKeys());
        minIdx, maxIdx := minIdx - diff, maxIdx - diff;
      }
    }

    /** Copies all keys of `n` behind the own ones. */
    method Append(k: int, n: TNode)
      requires Window(k) && n.Window(k) && n.keys != keys && maxIdx + n.NumKeys() < k
      modifies this`maxIdx, this`items, keys
      ensures Window(k) && items == old(items) + n.items
    {
      ghost var it, was := items, keys[..];
      var count := n.NumKeys();
      CopyRooms(n.keys, n.minIdx, keys, maxIdx + 1, count);
      KeptBefore(was, keys[..], minIdx, maxIdx + 1);
      Adjoin(keys[..], minIdx, maxIdx + 1, maxIdx + 1 + count, it, n.items);
      maxIdx := maxIdx + count;
      items := it + n.items;
    }

    /** Copies all keys of `n` before the own ones. */
    method Prepend(k: int, n: TNode)
      requires Window(k) && n.Window(k) && n.keys != keys && minIdx >= n.NumKeys()
      modifies this`minIdx, this`items, keys
      ensures Window(k) && items == n.items + old(items)
    {
      ghost var it, was := items, keys[..];
      var count := n.NumKeys();
      CopyRooms(n.keys, n.minIdx, keys, minIdx - count, count);
      KeptBehind(was, keys[..], minIdx, maxIdx + 1);
      Adjoin(keys[..], minIdx - count, minIdx, maxIdx + 1, n.items, it);
      minIdx := minIdx - count;
      items := n.items + it;
    }

    /** Takes over all keys of the right neighbour `n`, behind its own. */
    method MergeRight(k: int, n: TNode)
      requires k >= 2 && Window(k) && n.Window(k) && n != this && n.keys != keys && |items| + |n.items| <= k
      modifies this`minIdx, this`maxIdx, this`items, keys, n`minIdx, n`maxIdx, n`items
      ensures Window(k) && n.Window(k) && items == old(items + n.items) && n.items == []
    {
      RoomBehind(k, n.NumKeys());
      Append(k, n);
      n.minIdx, n.maxIdx, n.items := 1, 0, [];
    }

    /** Takes over all keys of the left neighbour `n`, before its own. */
    method MergeLeft(k: int, n: TNode)
      requires k >= 2 && Window(k) && n.Window(k) && n != this && n.keys != keys && |items| + |n.items| <= k
      modifies this`minIdx, this`maxIdx, this`items, keys, n`minIdx, n`maxIdx, n`items
      ensures Window(k) && n.Window(k) && items == old(n.items + items) && n.items == []
    {
      RoomBefore(k, n.NumKeys());
      Prepend(k, n);
      n.minIdx, n.maxIdx, n.items := 1, 0, [];
    }

    /** All keys of the right neighbour `n` but its last move behind the only key of this node. */
    method PullFromRight(k: int, n: TNode)
      requires k >= 2 && Window(k) && n.Window(k) && |items| == 1 && n.items != []
      requires n != this && n.keys != keys
      modifies this`minIdx, this`maxIdx, this`items, keys, n`minIdx, n`maxIdx, n`items, n.keys
      ensures Window(k) && n.Window(k)
      ensures items == old(items + n.items[..|n.items| - 1]) && n.items == old(n.items[|n.items| - 1..])
    {
      ghost var it, nit := items, n.items;
      var nkeys := n.NumKeys();
      keys[0] := keys[minIdx];
      minIdx, maxIdx := 0, nkeys - 1;
      CopyRooms(n.keys, n.minIdx, keys, 1, nkeys - 1);
      assert keys[0] == keys[..1][0] == it[0];
      assert n.keys[n.minIdx..n.minIdx + (nkeys - 1)] == nit[..nkeys - 1];
      items := it + nit[..nkeys - 1];
      assert keys[0..nkeys] == keys[..1] + keys[1..nkeys];
      n.KeepRoom(k, n.maxIdx);
    }

    /** Only the key in room `at` stays; it moves to the first-key room. */
    method KeepRoom(k: int, at: int)
      requires k >= 2 && keys.Length == k && 0 <= at < k
      modifies this`minIdx, this`maxIdx, this`items, keys
      ensures Window(k) && items == [old(keys[at])]
    {
      keys[FirstIdx(k)] := keys[at];
      minIdx, maxIdx := FirstIdx(k), FirstIdx(k);
      items := [keys[FirstIdx(k)]];
    }

    /** Moves the only key to the last room and widens the window to `nkeys` rooms before it. */
    method LastRoom(k: int, nkeys: int)
      requires Window(k) && |items| == 1 && 1 <= nkeys <= k
      modifies this`minIdx, this`maxIdx, keys
      ensures minIdx == k - nkeys && maxIdx == k - 1 && keys[k - 1] == items[0]
    {
      keys[k - 1] := keys[minIdx];
      minIdx, maxIdx := k - nkeys, k - 1;
    }

    /** Fills all rooms of the window but the last with `count` keys of `n`. */
    method CopyBefore(k: int, n: TNode, count: int, ghost it: seq<int>, ghost q: seq<int>)
      requires keys.Length == k && n.keys.Length == k && n.keys != keys && 0 <= count < k && |q| == count
      requires minIdx == k - 1 - count && maxIdx == k - 1 && it == [keys[k - 1]]
      requires 0 <= n.minIdx && n.minIdx + count <= k && n.keys[n.minIdx..n.minIdx + count] == q
      modifies this`items, keys
      ensures Window(k) && items == q + it
    {
      ghost var was := keys[..];
      CopyRooms(n.keys, n.minIdx, keys, minIdx, count);
      assert keys[k - 1] == keys[k - 1..][0] == was[k - 1..][0];
      items := q + it;
      EndsWith(keys[..], minIdx, k - 1, q, it);
    }

    /** All keys of the left neighbour `n` but its first move before the only key of this node. */
    method PullFromLeft(k: int, n: TNode)
      requires k >= 2 && Window(k) && n.Window(k) && |items| == 1 && n.items != []
      requires n != this && n.keys != keys
      modifies this`minIdx, this`maxIdx, this`items, keys, n`minIdx, n`maxIdx, n`items, n.keys
      ensures Window(k) && n.Window(k)
      ensures items == old(n.items[1..] + items) && n.items == old(n.items[..1])
    {
      ghost var it, nit := items, n.items;
      var nkeys := n.NumKeys();
      LastRoom(k, nkeys);
      n.minIdx, n.maxIdx := n.minIdx + 1, n.minIdx;
      assert n.keys[n.minIdx..n.minIdx + (nkeys - 1)] == nit[1..];
      CopyBefore(k, n, nkeys - 1, it, nit[1..]);
      n.KeepRoom(k, n.maxIdx);
    }
  }

  /** The fields of a node as a value. */
  datatype Rec = Rec(parent: TNode?, left: TNode?, right: TNode?, side: Side,
                     bfc: int, successor: TNode?, items: seq<int>)

  type Fields = map<TNode, Rec>

  ghost function RecOf(n: TNode): Rec
    reads n
  {
    Rec(n.parent, n.left, n.right, n.side, n.bfc, n.successor, n.items)
  }

  /** The fields of all nodes of a tree. */
  ghost function Snap(ns: set<TNode>): Fields
    reads ns
  {
    map n | n in ns :: RecOf(n)
  }
}
