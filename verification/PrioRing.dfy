/**
 Two-level priority lists on links: an entry has a node, by which it is linked,
 and a list head of its own for the entries behind it (include/ds/skiplist.h,
 kernel/generic/def_actions.c).
 */
module PrioRings {
  import opened ListRings
  import opened PrioLists
  import opened PrioOps

  /** The links of an entry and its priority. */
  datatype Cell = Cell(node: ListNode, head: ListNode, prio: nat)

  type Cells = map<nat, Cell>

  ghost predicate CellsOk(cells: Cells) {
    forall id :: id in cells ==>
      && cells[id].node.owner == id && cells[id].node.kind == EntryLink
      && cells[id].head.owner == id && cells[id].head.kind == EntryHead
  }

  ghost predicate Known(cells: Cells, q: seq<Action>) {
    forall i :: 0 <= i < |q| ==> q[i].id in cells && cells[q[i].id].prio == q[i].prio
  }

  /** The nodes by which entries are linked. */
  ghost function LinksOf(cells: Cells, q: seq<Action>): (r: seq<ListNode>)
    requires Known(cells, q)
    ensures |r| == |q| && forall i :: 0 <= i < |q| ==> r[i] == cells[q[i].id].node
  {
    if q == [] then [] else [cells[q[0].id].node] + LinksOf(cells, q[1..])
  }

  function HeadsOf(gs: seq<Group>): (r: seq<Action>)
    ensures |r| == |gs| && forall i :: 0 <= i < |gs| ==> r[i] == gs[i].head
  {
    if gs == [] then [] else [gs[0].head] + HeadsOf(gs[1..])
  }

  /** The list a head carries, and the empty lists of the entries in it. */
  ghost predicate Carries(m: Links, cells: Cells, g: Group) {
    && g.head.id in cells && cells[g.head.id].prio == g.head.prio && Known(cells, g.rest)
    && Ring(m, cells[g.head.id].head, LinksOf(cells, g.rest))
    && forall j :: 0 <= j < |g.rest| ==> Ring(m, cells[g.rest[j].id].head, [])
  }

  /** No entry stands twice. */
  ghost predicate Separate(gs: seq<Group>) {
    && (forall i :: 0 <= i < |gs| ==> UniqueIds(Members(gs[i])))
    && (forall i, k :: 0 <= i < k < |gs| ==> Ids(Members(gs[i])) !! Ids(Members(gs[k])))
  }

  ghost predicate Outside(lh: ListNode) { lh.kind != EntryLink && lh.kind != EntryHead }

  /** The links of the list with head `lh` show the two-level list `gs`. */
  ghost predicate Rings(m: Links, cells: Cells, lh: ListNode, gs: seq<Group>) {
    && CellsOk(cells) && Outside(lh) && Separate(gs) && Known(cells, HeadsOf(gs))
    && Ring(m, lh, LinksOf(cells, HeadsOf(gs))) && forall i :: 0 <= i < |gs| ==> Carries(m, cells, gs[i])
  }

  /** A node that belongs to entry number `id`. */
  ghost predicate PartOf(n: ListNode, ids: set<nat>) { !Outside(n) && n.owner in ids }

  /** The entries of a list. */
  ghost function AllIds(gs: seq<Group>): (r: set<nat>)
    ensures forall i :: 0 <= i < |gs| ==> Ids(Members(gs[i])) <= r
    ensures forall id :: id in r ==> exists i :: 0 <= i < |gs| && id in Ids(Members(gs[i]))
  {
    if gs == [] then {}
    else
      assert forall i :: 1 <= i < |gs| ==> gs[i] == gs[1..][i - 1];
      Ids(Members(gs[0])) + AllIds(gs[1..])
  }

  /** Nothing has changed but the head of the list and nodes of some entries. */
  ghost predicate Confined(m: Links, m': Links, lh: ListNode, ids: set<nat>) {
    m'.Keys == m.Keys && forall n :: n in m && n != lh && !PartOf(n, ids) ==> m'[n] == m[n]
  }

  lemma {:induction false} LinkParts(cells: Cells, q: seq<Action>, n: ListNode)
    requires CellsOk(cells) && Known(cells, q) && n in LinksOf(cells, q)
    ensures n.kind == EntryLink && n.owner in Ids(q)
  {
    var i :| 0 <= i < |q| && LinksOf(cells, q)[i] == n;
    assert q[i].id in Ids(q);
  }

  lemma {:induction false} MemberIds(g: Group)
    ensures Ids(Members(g)) == {g.head.id} + Ids(g.rest)
  {
    IdsAppend([g.head], g.rest);
    assert [g.head][0].id in Ids([g.head]);
    assert Ids([g.head]) == {g.head.id};
  }

  /** A node of the list that `g` heads, or of an entry in it. */
  ghost predicate InGroup(n: ListNode, g: Group) {
    (n.kind == EntryHead && n.owner == g.head.id) || PartOf(n, Ids(g.rest))
  }

  /** Nothing has changed but what is behind the head of `g`. */
  ghost predicate OnlyBehind(m: Links, m': Links, g: Group) {
    m'.Keys == m.Keys && forall n :: n in m && !InGroup(n, g) ==> m'[n] == m[n]
  }

  /** The nodes behind a head have not changed. */
  lemma {:induction false} BehindFrame(m: Links, m': Links, cells: Cells, g: Group)
    requires CellsOk(cells) && Carries(m, cells, g) && m'.Keys == m.Keys
    requires forall n :: n in m && InGroup(n, g) ==> m'[n] == m[n]
    ensures Carries(m', cells, g)
  {
    hide Ring;
    var h, c := cells[g.head.id].head, LinksOf(cells, g.rest);
    forall n | n in [h] + c ensures n in m && m'[n] == m[n] {
      RingIn(m, h, c, n);
      if n in c { LinkParts(cells, g.rest, n); }
    }
    RingFrame(m, m', h, c);
    forall j | 0 <= j < |g.rest| ensures Ring(m', cells[g.rest[j].id].head, []) {
      var e := cells[g.rest[j].id].head;
      assert g.rest[j].id in Ids(g.rest) && [e] + [] == [e];
      RingIn(m, e, [], e);
      RingFrame(m, m', e, []);
    }
  }

  lemma {:induction false} RingIn(m: Links, h: ListNode, c: seq<ListNode>, n: ListNode)
    requires Ring(m, h, c) && n in [h] + c
    ensures n in m
  {
    var i :| 0 <= i < |[h] + c| && ([h] + c)[i] == n;
  }

  /** Where a list with head `h` begins. */
  lemma {:induction false} RingFirst(m: Links, h: ListNode, c: seq<ListNode>)
    requires Ring(m, h, c)
    ensures h in m && m[h].next == (if c == [] then h else c[0]) && m[h].prev == (if c == [] then h else c[|c| - 1])
    ensures c == [] <==> m[h].next == h
  {
    var q := [h] + c;
    assert Joined(m, q[|q| - 1], h);
    if c != [] {
      assert Joined(m, q[0], q[1]);
      assert q[0] != q[1];
    }
  }

  /** Entries of different groups are different. */
  lemma {:induction false} OtherGroup(gs: seq<Group>, i: int, k: int)
    requires Separate(gs) && 0 <= i < |gs| && 0 <= k < |gs| && i != k
    ensures Ids(Members(gs[i])) !! Ids(Members(gs[k]))
  {
    if i < k {
      assert Ids(Members(gs[i])) !! Ids(Members(gs[k]));
    } else {
      assert Ids(Members(gs[k])) !! Ids(Members(gs[i]));
    }
  }

  lemma {:induction false} LinksFirst(cells: Cells, q: seq<Action>)
    requires Known(cells, q) && q != []
    ensures Known(cells, q[1..]) && LinksOf(cells, q)[0] == cells[q[0].id].node
    ensures LinksOf(cells, q)[..0] + LinksOf(cells, q)[1..] == LinksOf(cells, q[1..])
  {
  }

  /** Of a ring only its own nodes have changed, so what is not behind `g` is as it was. */
  lemma {:induction false} RingBehind(m: Links, m': Links, cells: Cells, g: Group)
    requires CellsOk(cells) && g.head.id in cells && Known(cells, g.rest)
    requires OnlyIn(m, m', [cells[g.head.id].head] + LinksOf(cells, g.rest))
    ensures OnlyBehind(m, m', g)
  {
    forall n | n in m && !InGroup(n, g) ensures m'[n] == m[n] {
      if n in [cells[g.head.id].head] + LinksOf(cells, g.rest) && n in LinksOf(cells, g.rest) {
        LinkParts(cells, g.rest, n);
      }
    }
  }

  /** The empty lists of followers are not touched by changes to the list they stand in. */
  lemma {:induction false} FollowerHead(m: Links, m': Links, cells: Cells, g: Group, j: int)
    requires CellsOk(cells) && Carries(m, cells, g) && UniqueIds(Members(g)) && 0 <= j < |g.rest|
    requires OnlyIn(m, m', [cells[g.head.id].head] + LinksOf(cells, g.rest))
    ensures Ring(m', cells[g.rest[j].id].head, [])
  {
    hide Ring;
    var e, q := cells[g.rest[j].id].head, [cells[g.head.id].head] + LinksOf(cells, g.rest);
    assert Members(g)[0] == g.head && Members(g)[j + 1] == g.rest[j];
    if e in q && e in LinksOf(cells, g.rest) { LinkParts(cells, g.rest, e); }
    assert e !in q;
    RingIn(m, e, [], e);
    assert [e] + [] == [e];
    RingFrame(m, m', e, []);
  }

  lemma {:induction false} OnlyBehindThen(a: Links, b: Links, c: Links, g: Group)
    requires OnlyBehind(a, b, g) && OnlyBehind(b, c, g)
    ensures OnlyBehind(a, c, g)
  {
  }

  /** The list of the first follower and what moves into it have no node in common. */
  lemma {:induction false} PromoteApart(cells: Cells, g: Group)
    requires CellsOk(cells) && g.head.id in cells && Known(cells, g.rest) && UniqueIds(Members(g)) && g.rest != []
    requires Known(cells, g.rest[1..])
    ensures Apart([cells[g.rest[0].id].head] + [], [cells[g.head.id].head] + LinksOf(cells, g.rest[1..]))
  {
    var x, y, c := cells[g.rest[0].id].head, cells[g.head.id].head, LinksOf(cells, g.rest[1..]);
    assert Members(g)[0] == g.head && Members(g)[1] == g.rest[0];
    forall j | 0 <= j < |[y] + c| ensures x != ([y] + c)[j] {
      if j > 0 {
        assert c[j - 1] in c;
        LinkParts(cells, g.rest[1..], c[j - 1]);
      }
    }
  }

  /** After the move the other followers' lists are still empty. */
  lemma {:induction false} Moved(m: Links, m': Links, cells: Cells, g: Group)
    requires CellsOk(cells) && g.head.id in cells && Known(cells, g.rest) && UniqueIds(Members(g)) && g.rest != []
    requires Known(cells, g.rest[1..]) && (forall j :: 0 <= j < |g.rest| ==> Ring(m, cells[g.rest[j].id].head, []))
    requires OnlyIn(m, m', [cells[g.rest[0].id].head] + [] + [cells[g.head.id].head] + LinksOf(cells, g.rest[1..]))
    ensures (forall j :: 1 <= j < |g.rest| ==> Ring(m', cells[g.rest[j].id].head, [])) && OnlyBehind(m, m', g)
  {
    hide Ring;
    var x, y, c := cells[g.rest[0].id].head, cells[g.head.id].head, LinksOf(cells, g.rest[1..]);
    var q := [x] + [] + [y] + c;
    forall n | n in q ensures n == x || n == y || (n.kind == EntryLink && n.owner in Ids(g.rest)) {
      if n in c {
        LinkParts(cells, g.rest[1..], n);
        TailIds(g.rest);
      }
    }
    assert g.rest[0].id in Ids(g.rest);
    forall j | 1 <= j < |g.rest| ensures Ring(m', cells[g.rest[j].id].head, []) {
      var e := cells[g.rest[j].id].head;
      assert Members(g)[0] == g.head && Members(g)[1] == g.rest[0] && Members(g)[j + 1] == g.rest[j];
      assert e !in q;
      RingIn(m, e, [], e);
      assert [e] + [] == [e];
      RingFrame(m, m', e, []);
    }
  }

  lemma {:induction false} TailIds(q: seq<Action>)
    requires q != []
    ensures Ids(q[1..]) <= Ids(q)
  {
    assert q == [q[0]] + q[1..];
    IdsAppend([q[0]], q[1..]);
  }

  /** The first follower leaves the list and takes the rest of it over. */
  method Promote(ghost ns: set<ListNode>, cells: Cells, ghost g: Group, at: Cell) returns (a: Cell)
    requires CellsOk(cells) && Carries(Snap(ns), cells, g) && UniqueIds(Members(g)) && g.rest != []
    requires at == cells[g.head.id]
    modifies ns
    ensures a == cells[g.rest[0].id] && Carries(Snap(ns), cells, Group(g.rest[0], g.rest[1..]))
    ensures Ring(Snap(ns), at.head, [])
    ensures OnlyBehind(old(Snap(ns)), Snap(ns), g)
  {
    hide Ring, OnlyIn, OnlyBehind, LinksOf, Chain, Apart, UniqueIds, Members;
    ghost var m, c := Snap(ns), LinksOf(cells, g.rest);
    RingFirst(m, at.head, c);
    LinksFirst(cells, g.rest);
    a := cells[at.head.next.owner];
    Remove(ns, at.head, c, 0, 0, a.node, a.node);
    ghost var m1, c1 := Snap(ns), LinksOf(cells, g.rest[1..]);
    forall j | 0 <= j < |g.rest| ensures Ring(m1, cells[g.rest[j].id].head, []) { FollowerHead(m, m1, cells, g, j); }
    RingBehind(m, m1, cells, g);
    RingFirst(m1, at.head, c1);
    if at.head.next != at.head {
      RingFirst(m1, a.head, []);
      PromoteApart(cells, g);
      Move(ns, a.head, [], 0, a.head, a.head.next, at.head, c1);
      assert [][..0] + c1 + [][0..] == c1;
      Moved(m1, Snap(ns), cells, g);
      OnlyBehindThen(m, m1, Snap(ns), g);
    }
  }
}
