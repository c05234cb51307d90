/**
 Scheduling a whole list of deferred actions on links
 (kernel/generic/def_actions.c).
 */
module PrioBatches {
  import opened ListRings
  import opened PrioLists
  import opened PrioOps
  import opened PrioRings
  import opened PrioLinks
  import opened PrioAdds

  /** A list is not touched by changes outside its head and its entries. */
  lemma {:induction false} RingsFrame(m: Links, m': Links, cells: Cells, lh: ListNode, gs: seq<Group>)
    requires Rings(m, cells, lh, gs) && m'.Keys == m.Keys
    requires forall n :: n in m && (n == lh || PartOf(n, AllIds(gs))) ==> m'[n] == m[n]
    ensures Rings(m', cells, lh, gs)
  {
    hide Ring, LinksOf, Carries, Separate, Members, HeadsOf, Ids;
    var c := LinksOf(cells, HeadsOf(gs));
    HeadsAll(gs);
    forall n | n in [lh] + c ensures n in m && m'[n] == m[n] {
      RingIn(m, lh, c, n);
      if n in c { LinkParts(cells, HeadsOf(gs), n); }
    }
    RingFrame(m, m', lh, c);
    forall i | 0 <= i < |gs| ensures Carries(m', cells, gs[i]) {
      MemberIds(gs[i]);
      BehindFrame(m, m', cells, gs[i]);
    }
  }

  /** The first head has left its list; it still carries its followers, and another list is as it was. */
  lemma {:induction false} FirstLeft(
    m: Links, m': Links, cells: Cells, src: ListNode, ds: seq<Group>, lh: ListNode, gs: seq<Group>)
    requires Rings(m, cells, src, ds) && ds != [] && Rings(m, cells, lh, gs) && lh != src && AllIds(gs) !! AllIds(ds)
    requires var c := LinksOf(cells, HeadsOf(ds)); OnlyIn(m, m', [src] + c) && Ring(m', src, c[..0] + c[1..])
    ensures Rings(m', cells, src, ds[1..]) && Carries(m', cells, ds[0]) && Rings(m', cells, lh, gs)
  {
    hide Ring, LinksOf, Carries, Separate, HeadsOf, Rings, OnlyIn, AllIds, Ids;
    HeadLeft(m, m', cells, src, ds, 0);
    LoneGone(m', cells, src, ds, 0);
    assert ds[..0] + ds[1..] == ds[1..];
    StillOutside(m, cells, lh, gs);
    FirstOnly(m, m', cells, src, ds, lh, gs);
    RingsFrame(m, m', cells, lh, gs);
  }

  lemma {:induction false} FirstOnly(
    m: Links, m': Links, cells: Cells, src: ListNode, ds: seq<Group>, lh: ListNode, gs: seq<Group>)
    requires Rings(m, cells, src, ds) && Outside(lh) && lh != src && AllIds(gs) !! AllIds(ds)
    requires OnlyIn(m, m', [src] + LinksOf(cells, HeadsOf(ds)))
    ensures m'.Keys == m.Keys && forall n :: n in m && (n == lh || PartOf(n, AllIds(gs))) ==> m'[n] == m[n]
  {
    hide Ring, Carries, Separate;
    var c := LinksOf(cells, HeadsOf(ds));
    HeadsAll(ds);
    forall n | n in m && (n == lh || PartOf(n, AllIds(gs))) ensures m'[n] == m[n] {
      if n in c { LinkParts(cells, HeadsOf(ds), n); }
      assert n !in [src] + c;
    }
  }

  /** One list is as it was when another has changed. */
  lemma {:induction false} OtherRings(
    m: Links, m': Links, cells: Cells, src: ListNode, ds: seq<Group>, lh: ListNode, ids: set<nat>)
    requires Rings(m, cells, src, ds) && Outside(lh) && lh != src && Confined(m, m', lh, ids) && AllIds(ds) !! ids
    ensures Rings(m', cells, src, ds)
  {
    hide Ring, Carries, Separate, LinksOf, HeadsOf, AllIds;
    RingsFrame(m, m', cells, src, ds);
  }

  lemma {:induction false} AllIdsUnion(gs: seq<Group>, ids: set<nat>)
    requires forall i :: 0 <= i < |gs| ==> Ids(Members(gs[i])) <= ids
    ensures AllIds(gs) <= ids
  {
    hide Ids, Members;
    forall id | id in AllIds(gs) ensures id in ids {
      var i :| 0 <= i < |gs| && id in Ids(Members(gs[i]));
    }
  }

  /** Adding leaves a list with the old entries and the new ones. */
  lemma {:induction false} AddedIds(gs: seq<Group>, g: Group)
    ensures AllIds(Added(gs, g)) == AllIds(gs) + Ids(Members(g))
    decreases |gs|
  {
    hide Ids, Members;
    if gs == [] || gs[0].head.prio > g.head.prio {
      assert ([g] + gs)[1..] == gs;
    } else if gs[0].head.prio == g.head.prio {
      var k := Grown(gs[0], g);
      assert ([k] + gs[1..])[1..] == gs[1..];
      IdsAppend(Members(gs[0]), Members(g));
    } else {
      AddedIds(gs[1..], g);
      assert ([gs[0]] + Added(gs[1..], g))[1..] == Added(gs[1..], g);
    }
  }

  /** Adding on two levels is adding to the queue, with heads in order. */
  lemma {:induction false} AddedFlat(gs: seq<Group>, g: Group, i: int)
    requires Proper(gs) && OnePrio(g) && 0 <= i <= |gs| && forall j :: 0 <= j < i ==> gs[j].head.prio < g.head.prio
    ensures Proper(Added(gs, g)) && Flat(Added(gs, g)) == PutAll(Flat(gs), Members(g))
    decreases |gs| - i
  {
    hide Proper, OnePrio, Flat, Members, PutAll, Added;
    AddedAt(gs, g, i);
    if i == |gs| || gs[i].head.prio > g.head.prio {
      NewHead(gs, i, g);
    } else if gs[i].head.prio == g.head.prio {
      SameHead(gs, i, g);
    } else {
      AddedFlat(gs, g, i + 1);
    }
  }

  /** A whole list has moved to an empty one. */
  lemma {:induction false} AllMoved(m: Links, m': Links, cells: Cells, lh: ListNode, src: ListNode, ds: seq<Group>)
    requires Rings(m, cells, src, ds) && Outside(lh)
    requires var c := LinksOf(cells, HeadsOf(ds)); OnlyIn(m, m', [lh] + [] + [src] + c) && Ring(m', lh, c)
    ensures Rings(m', cells, lh, ds)
  {
    hide Ring, LinksOf, Separate, HeadsOf;
    var c := LinksOf(cells, HeadsOf(ds));
    forall i | 0 <= i < |ds| ensures Carries(m', cells, ds[i]) {
      HeadIds(ds, i);
      forall n | n in m && InGroup(n, ds[i]) ensures m'[n] == m[n] {
        if n in c { LinkParts(cells, HeadsOf(ds), n); }
        assert n !in [lh] + [] + [src] + c;
      }
      BehindFrame(m, m', cells, ds[i]);
    }
  }

  lemma {:induction false} MoveApart(cells: Cells, lh: ListNode, src: ListNode, q: seq<Action>)
    requires CellsOk(cells) && Known(cells, q) && Outside(lh) && lh != src
    ensures Apart([lh] + [], [src] + LinksOf(cells, q))
  {
    var r := [src] + LinksOf(cells, q);
    forall j | 0 <= j < |r| ensures lh != r[j] {
      if j > 0 {
        assert r[j] in LinksOf(cells, q);
        LinkParts(cells, q, r[j]);
      }
    }
  }

  lemma {:induction false} FirstGroup(m: Links, cells: Cells, src: ListNode, ds: seq<Group>)
    requires Rings(m, cells, src, ds) && ds != [] && Proper(ds)
    ensures Known(cells, HeadsOf(ds)) && ds[0].head.id in cells && UniqueIds(Members(ds[0])) && OnePrio(ds[0])
    ensures cells[ds[0].head.id].node.owner == ds[0].head.id && cells[ds[0].head.id].node in m
    ensures var c := LinksOf(cells, HeadsOf(ds));
      |c| == |ds| && c[0] == cells[ds[0].head.id].node && m[src].next == c[0]
    ensures Ring(m, src, LinksOf(cells, HeadsOf(ds))) && Proper(ds[1..])
    ensures AllIds(ds) == Ids(Members(ds[0])) + AllIds(ds[1..]) && Ids(Members(ds[0])) !! AllIds(ds[1..])
    ensures Flat(ds) == Members(ds[0]) + Flat(ds[1..])
  {
    hide Ring, LinksOf, HeadsOf, Members;
    assert HeadsOf(ds)[0] == ds[0].head;
    var c := LinksOf(cells, HeadsOf(ds));
    RingFirst(m, src, c);
    RingIn(m, src, c, c[0]);
    forall id | id in AllIds(ds[1..]) ensures id !in Ids(Members(ds[0])) {
      var i :| 0 <= i < |ds[1..]| && id in Ids(Members(ds[1..][i]));
      OtherGroup(ds, 0, i + 1);
    }
  }

  /** The first head of a list, with its followers, goes to another list. */
  method PassFirst(ghost ns: set<ListNode>, cells: Cells, lh: ListNode, src: ListNode, ghost gs: seq<Group>,
        ghost ds: seq<Group>)
    requires Rings(Snap(ns), cells, lh, gs) && Rings(Snap(ns), cells, src, ds) && lh != src && ds != [] && src in ns
    requires AllIds(gs) !! AllIds(ds) && Proper(gs) && Proper(ds)
    modifies ns
    ensures var r := Added(gs, ds[0]);
      && Rings(Snap(ns), cells, lh, r) && Rings(Snap(ns), cells, src, ds[1..]) && AllIds(r) !! AllIds(ds[1..])
      && Proper(r) && Proper(ds[1..]) && Flat(r) == PutAll(Flat(gs), Members(ds[0]))
  {
    hide Ring, LinksOf, HeadsOf, Rings, Carries, OnlyIn, Members, UniqueIds, Ids, Known, Proper, OnePrio, Flat, PutAll;
    hide Confined, Added, AllIds;
    ghost var m := Snap(ns);
    FirstGroup(m, cells, src, ds);
    var a := cells[src.next.owner];
    ghost var c := LinksOf(cells, HeadsOf(ds));
    var prev := Unlink(ns, src, c, 0, a.node);
    ghost var m1 := Snap(ns);
    FirstLeft(m, m1, cells, src, ds, lh, gs);
    AddLinks(ns, cells, lh, gs, ds[0], a.node.owner);
    StillOutside(m1, cells, lh, gs);
    OtherRings(m1, Snap(ns), cells, src, ds[1..], lh, AllIds(gs) + Ids(Members(ds[0])));
    AddedIds(gs, ds[0]);
    AddedFlat(gs, ds[0], 0);
  }

  lemma {:induction false} StillOutside(m: Links, cells: Cells, lh: ListNode, gs: seq<Group>)
    requires Rings(m, cells, lh, gs)
    ensures Outside(lh) && CellsOk(cells) && Known(cells, HeadsOf(gs)) && Ring(m, lh, LinksOf(cells, HeadsOf(gs)))
    ensures lh in m && (gs == [] <==> m[lh].next == lh) && (gs == [] ==> m[lh] == Link(lh, lh))
    ensures gs == [] ==> Ring(m, lh, [])
  {
    hide Ring;
    RingFirst(m, lh, LinksOf(cells, HeadsOf(gs)));
  }

  /** All of `src` goes to `lh`: the queue afterwards is the old one with the actions put in one by one. */
  method PassAll(ghost ns: set<ListNode>, cells: Cells, lh: ListNode, src: ListNode, ghost gs: seq<Group>,
        ghost ds: seq<Group>)
    returns (ghost r: seq<Group>)
    requires Rings(Snap(ns), cells, lh, gs) && Rings(Snap(ns), cells, src, ds) && lh != src && {lh, src} <= ns
    requires AllIds(gs) !! AllIds(ds) && Proper(gs) && Proper(ds)
    modifies ns
    ensures Rings(Snap(ns), cells, lh, r) && Ring(Snap(ns), src, []) && Proper(r)
    ensures Flat(r) == PutAll(Flat(gs), Flat(ds))
  {
    hide Ring, LinksOf, HeadsOf, Rings, Carries, OnlyIn, Members, UniqueIds, Ids, Known, Proper, Flat, PutAll, Added;
    hide AllIds, Apart;
    StillOutside(Snap(ns), cells, src, ds);
    StillOutside(Snap(ns), cells, lh, gs);
    r := gs;
    if src.next == src {
      NothingPut(Flat(gs));
      return;
    }
    if lh.next == lh {
      ghost var m, c := Snap(ns), LinksOf(cells, HeadsOf(ds));
      MoveApart(cells, lh, src, HeadsOf(ds));
      FirstGroup(m, cells, src, ds);
      Move(ns, lh, [], 0, lh, lh.next, src, c);
      assert [][..0] + c + [][0..] == c;
      AllMoved(m, Snap(ns), cells, lh, src, ds);
      NothingPut([]);
      PutAllFresh(ds);
      r := ds;
      return;
    }
    ghost var k := 0;
    while src.next != src
      invariant 0 <= k <= |ds| && Rings(Snap(ns), cells, lh, r) && Rings(Snap(ns), cells, src, ds[k..])
      invariant Proper(r) && Proper(ds[k..]) && AllIds(r) !! AllIds(ds[k..])
      invariant PutAll(Flat(r), Flat(ds[k..])) == PutAll(Flat(gs), Flat(ds))
      decreases |ds| - k
    {
      StillOutside(Snap(ns), cells, src, ds[k..]);
      FirstGroup(Snap(ns), cells, src, ds[k..]);
      PutAllAppend(Flat(r), Members(ds[k]), Flat(ds[k + 1..]));
      assert ds[k..][1..] == ds[k + 1..] && ds[k..][0] == ds[k];
      PassFirst(ns, cells, lh, src, r, ds[k..]);
      r := Added(r, ds[k]);
      k := k + 1;
    }
    StillOutside(Snap(ns), cells, src, ds[k..]);
    NothingPut(Flat(r));
  }

  lemma {:induction false} NothingPut(q: seq<Action>)
    ensures Flat([]) == [] && PutAll(q, []) == q
  {
  }
}
