/**
 Circular doubly linked lists with a head (include/ds/list.h): every operation on
 the links is an operation on the sequence of nodes behind the head.
 */
module ListRings {

  /** What a node is part of: an entry of a list, the list an entry heads, or a list head outside all entries. */
  datatype Kind = EntryLink | EntryHead | TickLink | TickHead | Anchor

  class ListNode {
    var next: ListNode?
    var prev: ListNode?
    /** The number and the part of the structure that contains the node. */
    const owner: nat
    const kind: Kind

    constructor (owner: nat, kind: Kind)
      ensures next == null && prev == null && this.owner == owner && this.kind == kind
    {
      next, prev, this.owner, this.kind := null, null, owner, kind;
    }
  }

  datatype Link = Link(next: ListNode?, prev: ListNode?)

  type Links = map<ListNode, Link>

  ghost function Snap(ns: set<ListNode>): Links
    reads ns
  {
    map n | n in ns :: Link(n.next, n.prev)
  }

  /** Neighbours point at each other. */
  ghost predicate Joined(m: Links, a: ListNode, b: ListNode) {
    a in m && b in m && m[a].next == b && m[b].prev == a
  }

  ghost predicate Chain(m: Links, c: seq<ListNode>) {
    (forall i :: 0 <= i < |c| ==> c[i] in m) && forall i :: 0 <= i < |c| - 1 ==> Joined(m, c[i], c[i + 1])
  }

  ghost predicate Distinct(c: seq<ListNode>) { forall i, j :: 0 <= i < j < |c| ==> c[i] != c[j] }

  /** The list with head `h` and nodes `c`. */
  ghost predicate Ring(m: Links, h: ListNode, c: seq<ListNode>) {
    var q := [h] + c;
    Distinct(q) && Chain(m, q) && Joined(m, q[|q| - 1], h)
  }

  lemma {:induction false} ChainAppend(m: Links, a: seq<ListNode>, b: seq<ListNode>)
    requires a != [] && b != []
    ensures Chain(m, a + b) <==> Chain(m, a) && Chain(m, b) && Joined(m, a[|a| - 1], b[0])
  {
    var q := a + b;
    if Chain(m, q) {
      assert forall i :: 0 <= i < |a| ==> q[i] == a[i];
      assert forall i :: 0 <= i < |b| ==> q[|a| + i] == b[i];
      assert Joined(m, q[|a| - 1], q[|a|]);
      forall i | 0 <= i < |b| - 1 ensures Joined(m, b[i], b[i + 1]) { assert Joined(m, q[|a| + i], q[|a| + i + 1]); }
      forall i | 0 <= i < |a| - 1 ensures Joined(m, a[i], a[i + 1]) { assert Joined(m, q[i], q[i + 1]); }
    }
    if Chain(m, a) && Chain(m, b) && Joined(m, a[|a| - 1], b[0]) {
      forall i | 0 <= i < |q| - 1 ensures Joined(m, q[i], q[i + 1]) {
        if i < |a| - 1 { assert Joined(m, a[i], a[i + 1]); }
        if i >= |a| { assert Joined(m, b[i - |a|], b[i - |a| + 1]); }
      }
    }
  }

  /** Only the links at the two seams may have changed. */
  ghost predicate Spliced(m: Links, m': Links, changedNext: set<ListNode>, changedPrev: set<ListNode>) {
    && m'.Keys == m.Keys
    && (forall n :: n in m && n !in changedNext ==> m'[n].next == m[n].next)
    && (forall n :: n in m && n !in changedPrev ==> m'[n].prev == m[n].prev)
  }

  /** Nothing outside `q` has changed. */
  ghost predicate OnlyIn(m: Links, m': Links, q: seq<ListNode>) {
    m'.Keys == m.Keys && forall n :: n in m && n !in q ==> m'[n] == m[n]
  }

  /** A list none of whose nodes has changed. */
  lemma {:induction false} RingFrame(m: Links, m': Links, h: ListNode, c: seq<ListNode>)
    requires Ring(m, h, c) && m'.Keys == m.Keys && forall n :: n in [h] + c ==> n in m && m'[n] == m[n]
    ensures Ring(m', h, c)
  {
    var q := [h] + c;
    forall i | 0 <= i < |q| - 1 ensures Joined(m', q[i], q[i + 1]) {
      assert Joined(m, q[i], q[i + 1]) && q[i] in q && q[i + 1] in q;
    }
    assert q[|q| - 1] in q && h in q;
  }

  /** Only the neighbours at a seam have changed. */
  lemma {:induction false} SplicedOnly(m: Links, m': Links, cn: set<ListNode>, cp: set<ListNode>, q: seq<ListNode>)
    requires Spliced(m, m', cn, cp) && forall n :: n in cn + cp ==> n in q
    ensures OnlyIn(m, m', q)
  {
  }

  /** A chain keeps its inner links when only its last next and first prev may change. */
  lemma {:induction false} ChainKept(m: Links, m': Links, c: seq<ListNode>, cn: set<ListNode>, cp: set<ListNode>)
    requires Chain(m, c) && Spliced(m, m', cn, cp)
    requires (forall i :: 0 <= i < |c| - 1 ==> c[i] !in cn) && (forall i :: 1 <= i < |c| ==> c[i] !in cp)
    ensures Chain(m', c)
  {
    forall i | 0 <= i < |c| - 1 ensures Joined(m', c[i], c[i + 1]) { assert Joined(m, c[i], c[i + 1]); }
  }

  /** Links a chain of nodes, `first` to `last`, between two neighbours. */
  method AddRange(ghost ns: set<ListNode>, first: ListNode, last: ListNode, prev: ListNode, next: ListNode)
    requires {first, last, prev, next} <= ns && prev != last && first != next
    modifies first`prev, last`next, prev`next, next`prev
    ensures Spliced(old(Snap(ns)), Snap(ns), {last, prev}, {first, next})
    ensures Joined(Snap(ns), prev, first) && Joined(Snap(ns), last, next)
  {
    next.prev := last;
    last.next := next;
    prev.next := first;
    first.prev := prev;
  }

  /** Unlinks a chain of nodes. */
  method DelRange(ghost ns: set<ListNode>, first: ListNode, last: ListNode)
    requires {first, last} <= ns && first.prev != null && last.next != null && first.prev in ns && last.next in ns
    requires first.prev != last && last.next != first
    modifies ns
    ensures Spliced(old(Snap(ns)), Snap(ns), {last, old(first.prev)}, {first, old(last.next)})
    ensures Joined(Snap(ns), old(first.prev), old(last.next)) && first.prev == null && last.next == null
  {
    first.prev.next := last.next;
    last.next.prev := first.prev;
    first.prev := null;
    last.next := null;
  }

  /** No node of one is in the other. */
  ghost predicate Apart(a: seq<ListNode>, b: seq<ListNode>) {
    forall i, j :: 0 <= i < |a| && 0 <= j < |b| ==> a[i] != b[j]
  }

  /** The node at position `i` of the ring; the head follows the last one. */
  ghost function At(h: ListNode, c: seq<ListNode>, i: int): ListNode
    requires 0 <= i
  {
    if 1 <= i <= |c| then c[i - 1] else h
  }

  lemma {:induction false} DistinctInsert(a: seq<ListNode>, d: seq<ListNode>, b: seq<ListNode>)
    requires Distinct(a + b) && Distinct(d) && Apart(a + b, d)
    ensures Distinct(a + d + b)
  {
    var q, p := a + d + b, a + b;
    assert forall i :: 0 <= i < |a| ==> q[i] == p[i];
    assert forall i :: |a| + |d| <= i < |q| ==> q[i] == p[i - |d|];
    assert forall i :: |a| <= i < |a| + |d| ==> q[i] == d[i - |a|];
  }

  lemma {:induction false} DistinctRemove(a: seq<ListNode>, d: seq<ListNode>, b: seq<ListNode>)
    requires Distinct(a + d + b)
    ensures Distinct(a + b) && Distinct(d) && Apart(a + b, d)
  {
    var q, p := a + d + b, a + b;
    assert forall i :: 0 <= i < |a| ==> q[i] == p[i];
    assert forall i :: |a| <= i < |p| ==> p[i] == q[i + |d|];
    assert forall i :: 0 <= i < |d| ==> d[i] == q[i + |a|];
  }

  /** A ring cut open behind position `i`, and what closes it. */
  lemma {:induction false} CutRing(m: Links, a: seq<ListNode>, b: seq<ListNode>)
    requires a != []
    ensures (Chain(m, a + b) && Joined(m, (a + b)[|a + b| - 1], a[0])) <==>
      (&& Chain(m, a)
       && if b == [] then Joined(m, a[|a| - 1], a[0])
          else Chain(m, b) && Joined(m, a[|a| - 1], b[0]) && Joined(m, b[|b| - 1], a[0]))
  {
    if b == [] {
      assert a + b == a;
    } else {
      ChainAppend(m, a, b);
      assert (a + b)[|a + b| - 1] == b[|b| - 1];
    }
  }

  /** The links after a chain `d` was put between `a` and `b`, whose ends now point at it. */
  lemma {:induction false} Inserted(m: Links, m': Links, a: seq<ListNode>, d: seq<ListNode>, b: seq<ListNode>)
    requires a != [] && d != [] && Distinct(a + b) && Distinct(d) && Apart(a + b, d) && Chain(m, d)
    requires Chain(m, a + b) && Joined(m, (a + b)[|a + b| - 1], a[0])
    requires var next := if b == [] then a[0] else b[0];
      && Spliced(m, m', {d[|d| - 1], a[|a| - 1]}, {d[0], next})
      && Joined(m', a[|a| - 1], d[0]) && Joined(m', d[|d| - 1], next)
    ensures Distinct(a + d + b) && Chain(m', a + d + b) && Joined(m', (a + d + b)[|a + d + b| - 1], a[0])
  {
    var next := if b == [] then a[0] else b[0];
    DistinctInsert(a, d, b);
    CutRing(m, a, b);
    Places(a, d, b);
    ChainKept(m, m', a, {d[|d| - 1], a[|a| - 1]}, {d[0], next});
    ChainKept(m, m', d, {d[|d| - 1], a[|a| - 1]}, {d[0], next});
    ChainKept(m, m', b, {d[|d| - 1], a[|a| - 1]}, {d[0], next});
    ChainAppend(m', a, d);
    CutRing(m', a + d, b);
    if b != [] { assert Joined(m, b[|b| - 1], a[0]); }
  }

  /** Where the ends of the three parts are not. */
  lemma {:induction false} Places(a: seq<ListNode>, d: seq<ListNode>, b: seq<ListNode>)
    requires a != [] && d != [] && Distinct(a + b) && Distinct(d) && Apart(a + b, d)
    ensures var l, p, f, n := d[|d| - 1], a[|a| - 1], d[0], if b == [] then a[0] else b[0];
      && (forall i :: 0 <= i < |a| - 1 ==> a[i] != l && a[i] != p)
      && (forall i :: 1 <= i < |a| ==> a[i] != f && a[i] != n)
      && (forall i :: 0 <= i < |d| - 1 ==> d[i] != l && d[i] != p)
      && (forall i :: 1 <= i < |d| ==> d[i] != f && d[i] != n)
      && (forall i :: 0 <= i < |b| ==> b[i] != l && b[i] != p) && (forall i :: 1 <= i < |b| ==> b[i] != f && b[i] != n)
      && p != l && f != n && a[0] != f && (b != [] ==> a[0] != n)
  {
    var q := a + b;
    assert forall i :: 0 <= i < |a| ==> q[i] == a[i];
    assert forall i :: 0 <= i < |b| ==> q[|a| + i] == b[i];
  }

  /** Puts the chain `d` behind position `i` of a list. */
  method Insert(ghost ns: set<ListNode>, ghost h: ListNode, ghost c: seq<ListNode>, ghost i: nat,
      ghost d: seq<ListNode>, first: ListNode, last: ListNode, prev: ListNode, next: ListNode)
    requires Ring(Snap(ns), h, c) && i <= |c| && d != [] && Chain(Snap(ns), d) && Distinct(d) && Apart([h] + c, d)
    requires first == d[0] && last == d[|d| - 1] && prev == At(h, c, i) && next == At(h, c, i + 1)
    modifies ns
    ensures Ring(Snap(ns), h, c[..i] + d + c[i..]) && OnlyIn(old(Snap(ns)), Snap(ns), [h] + c + d)
  {
    hide Distinct, Chain, Spliced, Apart, OnlyIn, Ring, At;
    ghost var a, b, m := [h] + c[..i], c[i..], Snap(ns);
    Between(h, c, i, d);
    IsRing(m, h, c, a + b);
    Places(a, d, b);
    AllIn(m, a + b, d);
    AddRange(ns, first, last, prev, next);
    SplicedOnly(m, Snap(ns), {last, prev}, {first, next}, [h] + c + d);
    Inserted(m, Snap(ns), a, d, b);
    IsRing(Snap(ns), h, c[..i] + d + c[i..], a + d + b);
  }

  /** A list before and behind position `i`, with room for `d` there. */
  lemma {:induction false} Between(h: ListNode, c: seq<ListNode>, i: nat, d: seq<ListNode>)
    requires i <= |c| && d != []
    ensures var a, b, q := [h] + c[..i], c[i..], [h] + c + d;
      && a + b == [h] + c && a + d + b == [h] + (c[..i] + d + c[i..]) && a[0] == h && At(h, c, i) == a[|a| - 1]
      && At(h, c, i + 1) == (if b == [] then a[0] else b[0])
      && a[|a| - 1] == (a + b)[i] && At(h, c, i + 1) == (a + b)[if i < |c| then i + 1 else 0]
      && At(h, c, i) in q && At(h, c, i + 1) in q && d[0] in q && d[|d| - 1] in q
  {
    var q := [h] + c + d;
    assert q[i] == At(h, c, i) && q[if i < |c| then i + 1 else 0] == At(h, c, i + 1);
    assert q[1 + |c|] == d[0] && q[|c| + |d|] == d[|d| - 1];
  }

  lemma {:induction false} AllIn(m: Links, q: seq<ListNode>, d: seq<ListNode>)
    requires Chain(m, q) && Chain(m, d)
    ensures (forall i :: 0 <= i < |q| ==> q[i] in m) && forall i :: 0 <= i < |d| ==> d[i] in m
  {
  }

  /** The links after a chain `d` was taken out from between `a` and `b`. */
  lemma {:induction false} Removed(m: Links, m': Links, a: seq<ListNode>, d: seq<ListNode>, b: seq<ListNode>)
    requires a != [] && d != [] && Distinct(a + d + b)
    requires Chain(m, a + d + b) && Joined(m, (a + d + b)[|a + d + b| - 1], a[0])
    requires var next := if b == [] then a[0] else b[0];
      Spliced(m, m', {d[|d| - 1], a[|a| - 1]}, {d[0], next}) && Joined(m', a[|a| - 1], next)
    ensures Distinct(a + b) && Chain(m', a + b) && Joined(m', (a + b)[|a + b| - 1], a[0]) && Chain(m', d)
  {
    var next := if b == [] then a[0] else b[0];
    DistinctRemove(a, d, b);
    Places(a, d, b);
    CutRing(m, a + d, b);
    ChainAppend(m, a, d);
    ChainKept(m, m', a, {d[|d| - 1], a[|a| - 1]}, {d[0], next});
    ChainKept(m, m', d, {d[|d| - 1], a[|a| - 1]}, {d[0], next});
    ChainKept(m, m', b, {d[|d| - 1], a[|a| - 1]}, {d[0], next});
    CutRing(m', a, b);
    if b != [] { assert Joined(m, b[|b| - 1], a[0]); }
  }

  /** Takes the nodes from position `i` to `j` out of a list; they stay linked to each other. */
  method Remove(ghost ns: set<ListNode>, ghost h: ListNode, ghost c: seq<ListNode>, ghost i: nat, ghost j: nat,
        first: ListNode, last: ListNode)
    requires Ring(Snap(ns), h, c) && i <= j < |c| && first == c[i] && last == c[j]
    modifies ns
    ensures Ring(Snap(ns), h, c[..i] + c[j + 1..]) && Chain(Snap(ns), c[i..j + 1])
    ensures first.prev == null && last.next == null && OnlyIn(old(Snap(ns)), Snap(ns), [h] + c)
  {
    hide Distinct, Chain, Spliced, Apart, OnlyIn, At, Ring, Joined;
    ghost var m := Snap(ns);
    Bounds(m, h, c, i, j);
    DelRange(ns, first, last);
    Removal(m, Snap(ns), h, c, i, j);
  }

  /** The neighbours of a stretch of a list. */
  lemma {:induction false} Bounds(m: Links, h: ListNode, c: seq<ListNode>, i: nat, j: nat)
    requires Ring(m, h, c) && i <= j < |c|
    ensures c[i] in m && c[j] in m && At(h, c, i) in m && At(h, c, j + 2) in m
    ensures m[c[i]].prev == At(h, c, i) && m[c[j]].next == At(h, c, j + 2) && At(h, c, i) != c[j]
    ensures At(h, c, j + 2) != c[i]
  {
    hide Distinct, Chain;
    var a, d, b := [h] + c[..i], c[i..j + 1], c[j + 1..];
    assert a + d + b == [h] + c;
    Ends(m, a, d, b);
  }

  /** A list before, in and behind a stretch. */
  lemma {:induction false} Stretch(h: ListNode, c: seq<ListNode>, i: nat, j: nat)
    requires i <= j < |c|
    ensures var a, d, b := [h] + c[..i], c[i..j + 1], c[j + 1..];
      && a + d + b == [h] + c && a + b == [h] + (c[..i] + c[j + 1..]) && a != [] && d != []
      && a[0] == h && a[|a| - 1] == At(h, c, i) && d[0] == c[i] && d[|d| - 1] == c[j]
      && At(h, c, j + 2) == if b == [] then a[0] else b[0]
  {
  }

  lemma {:induction false} IsRing(m: Links, h: ListNode, c: seq<ListNode>, q: seq<ListNode>)
    requires q == [h] + c
    ensures Ring(m, h, c) <==> Distinct(q) && Chain(m, q) && Joined(m, q[|q| - 1], h)
  {
  }

  lemma {:induction false} Removal(m: Links, m': Links, h: ListNode, c: seq<ListNode>, i: nat, j: nat)
    requires Ring(m, h, c) && i <= j < |c|
    requires Spliced(m, m', {c[j], At(h, c, i)}, {c[i], At(h, c, j + 2)}) && Joined(m', At(h, c, i), At(h, c, j + 2))
    ensures Ring(m', h, c[..i] + c[j + 1..]) && Chain(m', c[i..j + 1]) && OnlyIn(m, m', [h] + c)
  {
    hide Distinct, Chain, Spliced, OnlyIn, Joined, Ring, At;
    var a, d, b := [h] + c[..i], c[i..j + 1], c[j + 1..];
    Stretch(h, c, i, j);
    EndsIn([h] + c, a, d, b);
    SplicedOnly(m, m', {c[j], At(h, c, i)}, {c[i], At(h, c, j + 2)}, [h] + c);
    IsRing(m, h, c, a + d + b);
    Removed(m, m', a, d, b);
    IsRing(m', h, c[..i] + c[j + 1..], a + b);
  }

  lemma {:induction false} EndsIn(q: seq<ListNode>, a: seq<ListNode>, d: seq<ListNode>, b: seq<ListNode>)
    requires a != [] && d != [] && q == a + d + b
    ensures a[|a| - 1] in q && a[0] in q && d[0] in q && d[|d| - 1] in q && (b != [] ==> b[0] in q)
  {
    assert q[|a| - 1] == a[|a| - 1] && q[0] == a[0] && q[|a|] == d[0] && q[|a| + |d| - 1] == d[|d| - 1];
    assert b != [] ==> q[|a| + |d|] == b[0];
  }

  lemma {:induction false} Ends(m: Links, a: seq<ListNode>, d: seq<ListNode>, b: seq<ListNode>)
    requires a != [] && d != [] && Distinct(a + d + b) && Chain(m, a + d + b)
    requires Joined(m, (a + d + b)[|a + d + b| - 1], a[0])
    ensures var next := if b == [] then a[0] else b[0];
      && Joined(m, a[|a| - 1], d[0]) && Joined(m, d[|d| - 1], next) && a[|a| - 1] != d[|d| - 1] && next != d[0]
  {
    DistinctRemove(a, d, b);
    Places(a, d, b);
    CutRing(m, a + d, b);
    ChainAppend(m, a, d);
  }

  /** Puts one node in front of `before`; in front of the head is the tail of the list. */
  method AddBefore(ghost ns: set<ListNode>, ghost h: ListNode, ghost c: seq<ListNode>, ghost i: nat, before: ListNode,
        node: ListNode)
    requires Ring(Snap(ns), h, c) && i <= |c| && before == At(h, c, i + 1) && node in ns && node !in [h] + c
    modifies ns
    ensures Ring(Snap(ns), h, c[..i] + [node] + c[i..]) && OnlyIn(old(Snap(ns)), Snap(ns), [h] + c + [node])
  {
    hide Distinct, OnlyIn;
    ghost var m, a, b := Snap(ns), [h] + c[..i], c[i..];
    assert a + b == [h] + c;
    CutRing(m, a, b);
    assert Distinct([node]) by { OneDistinct(node); }
    assert Joined(m, At(h, c, i), before);
    Insert(ns, h, c, i, [node], node, node, before.prev, before);
  }

  lemma {:induction false} OneDistinct(n: ListNode)
    ensures Distinct([n])
  {
  }

  /** Moves all nodes of one list behind position `i` of another; the first list is empty then. */
  method Move(ghost ns: set<ListNode>, ghost h: ListNode, ghost c: seq<ListNode>, ghost i: nat,
      prev: ListNode, next: ListNode, src: ListNode, ghost d: seq<ListNode>)
    requires Ring(Snap(ns), h, c) && Ring(Snap(ns), src, d) && d != [] && Apart([h] + c, [src] + d) && i <= |c|
    requires prev == At(h, c, i) && next == At(h, c, i + 1)
    modifies ns
    ensures Ring(Snap(ns), h, c[..i] + d + c[i..]) && Ring(Snap(ns), src, [])
    ensures OnlyIn(old(Snap(ns)), Snap(ns), [h] + c + [src] + d)
  {
    hide Distinct, Chain, OnlyIn;
    ghost var m := Snap(ns);
    CutRing(m, [src], d);
    assert [src] + d == [src] + d + [];
    DistinctRemove([src], d, []);
    HeadNot(src, d);
    ApartTail([h] + c, src, d);
    assert Joined(m, src, d[0]) && Joined(m, d[|d| - 1], src);
    Insert(ns, h, c, i, d, src.next, src.prev, prev, next);
    ghost var b, e := Snap(ns), c[..i] + d + c[i..];
    src.next, src.prev := src, src;
    Untouched(b, Snap(ns), src, h, e, c, i, d);
    EmptyRing(Snap(ns), src);
    MoveOnly(m, b, Snap(ns), [h] + c, src, d);
  }

  lemma {:induction false} MoveOnly(a: Links, b: Links, m: Links, q: seq<ListNode>, src: ListNode, d: seq<ListNode>)
    requires OnlyIn(a, b, q + d) && m.Keys == b.Keys && forall n :: n in b && n != src ==> m[n] == b[n]
    ensures OnlyIn(a, m, q + [src] + d)
  {
    var r := q + [src] + d;
    forall n | n in a && n !in r ensures m[n] == a[n] {
      assert n !in q && n !in d && n !in [src] && n !in q + d;
    }
  }

  lemma {:induction false} ApartTail(q: seq<ListNode>, s: ListNode, d: seq<ListNode>)
    requires Apart(q, [s] + d)
    ensures Apart(q, d) && forall i :: 0 <= i < |q| ==> q[i] != s
  {
    forall i, j | 0 <= i < |q| && 0 <= j < |d| ensures q[i] != d[j] { assert ([s] + d)[j + 1] == d[j]; }
    forall i | 0 <= i < |q| ensures q[i] != s { assert ([s] + d)[0] == s; }
  }

  lemma {:induction false} HeadNot(s: ListNode, d: seq<ListNode>)
    requires Apart([s] + [], d)
    ensures forall k :: 0 <= k < |d| ==> d[k] != s
  {
    forall k | 0 <= k < |d| ensures d[k] != s { assert ([s] + [])[0] == s; }
  }

  lemma {:induction false} EmptyRing(m: Links, h: ListNode)
    requires h in m && m[h] == Link(h, h)
    ensures Ring(m, h, [])
  {
    assert [h] + [] == [h];
  }

  lemma {:induction false} Untouched(m: Links, m': Links, s: ListNode, h: ListNode, e: seq<ListNode>,
        c: seq<ListNode>, i: nat, d: seq<ListNode>)
    requires i <= |c| && e == c[..i] + d + c[i..] && Ring(m, h, e)
    requires (forall k :: 0 <= k < |[h] + c| ==> ([h] + c)[k] != s)
    requires (forall k :: 0 <= k < |d| ==> d[k] != s) && m'.Keys == m.Keys
    requires forall n :: n in m && n != s ==> m'[n] == m[n]
    ensures Ring(m', h, e)
  {
    var q := [h] + e;
    assert h == ([h] + c)[0];
    forall k | 0 <= k < |q| ensures q[k] != s {
      if 1 <= k <= i { assert q[k] == c[k - 1] == ([h] + c)[k]; }
      if i < k <= i + |d| { assert q[k] == d[k - 1 - i]; }
      if i + |d| < k { assert q[k] == c[k - 1 - |d|] == ([h] + c)[k - |d|]; }
    }
    forall k | 0 <= k < |q| - 1 ensures Joined(m', q[k], q[k + 1]) { assert Joined(m, q[k], q[k + 1]); }
  }

  /** The links of `old'` go to `node`. */
  method Relink(ghost ns: set<ListNode>, old': ListNode, node: ListNode)
    requires {old', node} <= ns && old'.prev != null && old'.next != null && {old'.prev, old'.next} <= ns
    requires node !in {old', old'.prev, old'.next} && old' !in {old'.prev, old'.next}
    modifies ns
    ensures Spliced(old(Snap(ns)), Snap(ns), {old', node, old(old'.prev)}, {old', node, old(old'.next)})
    ensures Joined(Snap(ns), old(old'.prev), node) && Joined(Snap(ns), node, old(old'.next))
    ensures old'.next == null && old'.prev == null
  {
    old'.prev.next := node;
    node.prev := old'.prev;
    node.next := old'.next;
    old'.next.prev := node;
    old'.prev := null;
    old'.next := null;
  }

  /** `node` takes the place of `old'`, which is unlinked. */
  method Replace(ghost ns: set<ListNode>, ghost h: ListNode, ghost c: seq<ListNode>, ghost i: nat, old': ListNode,
        node: ListNode)
    requires Ring(Snap(ns), h, c) && i < |c| && c[i] == old' && node in ns && node !in [h] + c
    modifies ns
    ensures Ring(Snap(ns), h, c[i := node]) && old'.next == null && old'.prev == null
    ensures OnlyIn(old(Snap(ns)), Snap(ns), [h] + c + [node])
  {
    hide Distinct, Chain, Ring, OnlyIn, Spliced;
    ghost var m, a, b := Snap(ns), [h] + c[..i], c[i + 1..];
    assert a + [old'] + b == [h] + c;
    IsRing(m, h, c, a + [old'] + b);
    Ends(m, a, [old'], b);
    NotThere(m, a, [old'], b, node);
    Relink(ns, old', node);
    ghost var m' := Snap(ns);
    EndsIn([h] + c, a, [old'], b);
    ghost var prev, next := a[|a| - 1], if b == [] then a[0] else b[0];
    SplicedOnly(m, m', {old', node, prev}, {old', node, next}, [h] + c + [node]);
    Replaced(m, m', a, old', b, node);
    assert a + [node] + b == [h] + c[i := node];
    IsRing(m', h, c[i := node], a + [node] + b);
  }

  lemma {:induction false} NotThere(m: Links, a: seq<ListNode>, d: seq<ListNode>, b: seq<ListNode>, node: ListNode)
    requires node !in a + d + b && Chain(m, a + d + b)
    ensures node !in a && node !in b && node !in d && (forall k :: 0 <= k < |a| ==> a[k] in m)
    ensures (forall k :: 0 <= k < |b| ==> b[k] in m)
  {
    var q := a + d + b;
    forall k | 0 <= k < |a| ensures a[k] != node && a[k] in m { assert q[k] == a[k]; }
    forall k | 0 <= k < |d| ensures d[k] != node { assert q[|a| + k] == d[k]; }
    forall k | 0 <= k < |b| ensures b[k] != node && b[k] in m { assert q[|a| + |d| + k] == b[k]; }
  }

  lemma {:induction false} Replaced(m: Links, m': Links, a: seq<ListNode>, o: ListNode, b: seq<ListNode>, n: ListNode)
    requires a != [] && Distinct(a + [o] + b) && n !in a && n !in b && n != o && n in m
    requires Chain(m, a + [o] + b) && Joined(m, (a + [o] + b)[|a + [o] + b| - 1], a[0])
    requires var next := if b == [] then a[0] else b[0];
      Spliced(m, m', {o, n, a[|a| - 1]}, {o, n, next}) && Joined(m', a[|a| - 1], n) && Joined(m', n, next)
    ensures Distinct(a + [n] + b) && Chain(m', a + [n] + b) && Joined(m', (a + [n] + b)[|a + [n] + b| - 1], a[0])
  {
    var next := if b == [] then a[0] else b[0];
    DistinctRemove(a, [o], b);
    Places(a, [o], b);
    DistinctInsert(a, [n], b) by { SingleApart(a, b, n); }
    CutRing(m, a + [o], b);
    ChainAppend(m, a, [o]);
    assert (forall i :: 0 <= i < |a| ==> a[i] != n) && (forall i :: 0 <= i < |b| ==> b[i] != n);
    assert o == [o][0];
    OldApart(a, b, o);
    ChainKept(m, m', a, {o, n, a[|a| - 1]}, {o, n, next});
    ChainKept(m, m', b, {o, n, a[|a| - 1]}, {o, n, next});
    ChainAppend(m', a, [n]);
    CutRing(m', a + [n], b);
    if b != [] { assert Joined(m, b[|b| - 1], a[0]); }
  }

  lemma {:induction false} SingleApart(a: seq<ListNode>, b: seq<ListNode>, n: ListNode)
    requires n !in a && n !in b
    ensures Distinct([n]) && Apart(a + b, [n])
  {
  }

  lemma {:induction false} OldApart(a: seq<ListNode>, b: seq<ListNode>, o: ListNode)
    requires Apart(a + b, [o])
    ensures (forall i :: 0 <= i < |a| ==> a[i] != o) && (forall i :: 0 <= i < |b| ==> b[i] != o)
  {
    forall i | 0 <= i < |a| ensures a[i] != o { assert (a + b)[i] == a[i] && [o][0] == o; }
    forall i | 0 <= i < |b| ensures b[i] != o { assert (a + b)[|a| + i] == b[i] && [o][0] == o; }
  }

  /** Links one node behind `prev`, from the node's side first. */
  method LinkBehind(ghost ns: set<ListNode>, ghost h: ListNode, ghost c: seq<ListNode>, ghost i: nat, prev: ListNode,
        node: ListNode)
    requires Ring(Snap(ns), h, c) && i <= |c| && prev == At(h, c, i) && node in ns && node !in [h] + c
    modifies ns
    ensures Ring(Snap(ns), h, c[..i] + [node] + c[i..]) && OnlyIn(old(Snap(ns)), Snap(ns), [h] + c + [node])
  {
    hide Ring, OnlyIn, At;
    ghost var m := Snap(ns);
    Gap(m, h, c, i, node);
    node.prev := prev;
    node.next := prev.next;
    prev.next.prev := node;
    prev.next := node;
    GapFilled(m, Snap(ns), h, c, i, node);
  }

  /** Two neighbours of a list. */
  lemma {:induction false} Gap(m: Links, h: ListNode, c: seq<ListNode>, i: nat, node: ListNode)
    requires Ring(m, h, c) && i <= |c| && node !in [h] + c
    ensures Joined(m, At(h, c, i), At(h, c, i + 1)) && node != At(h, c, i) && node != At(h, c, i + 1)
  {
    hide Distinct, Chain;
    var a, b := [h] + c[..i], c[i..];
    assert a + b == [h] + c;
    CutRing(m, a, b);
    assert At(h, c, i) == ([h] + c)[i] && At(h, c, i + 1) == ([h] + c)[if i < |c| then i + 1 else 0];
  }

  lemma {:induction false} GapFilled(m: Links, m': Links, h: ListNode, c: seq<ListNode>, i: nat, node: ListNode)
    requires Ring(m, h, c) && i <= |c| && node in m && node !in [h] + c
    requires Spliced(m, m', {node, At(h, c, i)}, {node, At(h, c, i + 1)})
    requires Joined(m', At(h, c, i), node) && Joined(m', node, At(h, c, i + 1))
    ensures Ring(m', h, c[..i] + [node] + c[i..]) && OnlyIn(m, m', [h] + c + [node])
  {
    hide Distinct, Chain, Spliced, OnlyIn, Joined;
    var a, b := [h] + c[..i], c[i..];
    assert a + b == [h] + c;
    assert At(h, c, i) == ([h] + c)[i] && At(h, c, i + 1) == ([h] + c)[if i < |c| then i + 1 else 0];
    assert At(h, c, i) in [h] + c && At(h, c, i + 1) in [h] + c;
    SplicedOnly(m, m', {node, At(h, c, i)}, {node, At(h, c, i + 1)}, [h] + c + [node]);
    SingleApart(a, b, node);
    OneChain(m, node);
    Inserted(m, m', a, [node], b);
    assert a + [node] + b == [h] + (c[..i] + [node] + c[i..]);
  }

  lemma {:induction false} OneChain(m: Links, n: ListNode)
    requires n in m
    ensures Chain(m, [n])
  {
  }

  /** A list whose head gives its place to another head. */
  lemma {:induction false} Reheaded(m: Links, m': Links, h: ListNode, c: seq<ListNode>, h': ListNode)
    requires Ring(m, h, c) && c != [] && h' in m && h' !in [h] + c
    requires Spliced(m, m', {h', c[|c| - 1]}, {h', c[0]}) && Joined(m', h', c[0]) && Joined(m', c[|c| - 1], h')
    ensures Ring(m', h', c) && OnlyIn(m, m', [h'] + c)
  {
    hide Distinct, Joined;
    assert [h] + c == [h] + c + [];
    DistinctRemove([h], c, []);
    CutRing(m, [h], c);
    DistinctInner(c);
    ChainKept(m, m', c, {h', c[|c| - 1]}, {h', c[0]});
    SplicedOnly(m, m', {h', c[|c| - 1]}, {h', c[0]}, [h'] + c);
    CutRing(m', [h'], c);
    assert Chain(m', [h']);
    DistinctOne(h', c);
  }

  lemma {:induction false} DistinctInner(c: seq<ListNode>)
    requires Distinct(c) && c != []
    ensures (forall i :: 0 <= i < |c| - 1 ==> c[i] != c[|c| - 1]) && forall i :: 1 <= i < |c| ==> c[i] != c[0]
  {
  }

  lemma {:induction false} DistinctOne(h: ListNode, c: seq<ListNode>)
    requires Distinct(c) && h !in c
    ensures Distinct([h] + c)
  {
  }

  /** Moves a whole list from the head `h` to the head `h'`; `h` is left dangling. */
  method Rehead(ghost ns: set<ListNode>, h: ListNode, ghost c: seq<ListNode>, h': ListNode)
    requires Ring(Snap(ns), h, c) && c != [] && h' in ns && h' !in [h] + c
    modifies ns
    ensures Ring(Snap(ns), h', c) && OnlyIn(old(Snap(ns)), Snap(ns), [h'] + c)
  {
    hide Ring, OnlyIn;
    ghost var m := Snap(ns);
    ListEnds(m, h, c, h');
    var first := h.next;
    h'.next := first;
    first.prev := h';
    h'.prev := h.prev;
    h.prev.next := h';
    Reheaded(m, Snap(ns), h, c, h');
  }

  lemma {:induction false} ListEnds(m: Links, h: ListNode, c: seq<ListNode>, h': ListNode)
    requires Ring(m, h, c) && c != [] && h' !in [h] + c
    ensures h in m && m[h].next == c[0] && m[h].prev == c[|c| - 1] && c[0] in m && c[|c| - 1] in m
    ensures h' != h && h' != c[0] && h' != c[|c| - 1] && h != c[0] && h != c[|c| - 1]
  {
    var q := [h] + c;
    assert Joined(m, q[0], q[1]) && Joined(m, q[|q| - 1], h) && q[1] == c[0] && q[|q| - 1] == c[|c| - 1];
    assert q[0] in q && q[1] in q && q[|q| - 1] in q;
  }
}
