/**
 A timer leaves its tick, on links: when it stands for the tick, the list of the
 tick moves to the head another timer owns, and that timer's record takes its
 place in the row (kernel/generic/timer.c).
 */
module TimerLinks {
  import opened ListRings
  import opened PrioLists
  import opened PrioOps
  import opened PrioRings
  import opened PrioLinks
  import opened PrioAdds
  import opened PrioBatches

  /** The links of a tick record: its place in a row, and the head of its list of actions. */
  datatype Record = Record(node: ListNode, head: ListNode)

  type Records = map<nat, Record>

  ghost predicate RecordsOk(ticks: Records) {
    forall id :: id in ticks ==>
      && ticks[id].node.owner == id && ticks[id].node.kind == TickLink
      && ticks[id].head.owner == id && ticks[id].head.kind == TickHead
  }

  ghost predicate Listed(ticks: Records, row: seq<nat>) { forall i :: 0 <= i < |row| ==> row[i] in ticks }

  /** The nodes by which tick records are linked. */
  ghost function RowLinks(ticks: Records, row: seq<nat>): (r: seq<ListNode>)
    requires Listed(ticks, row)
    ensures |r| == |row| && forall i :: 0 <= i < |row| ==> r[i] == ticks[row[i]].node
  {
    if row == [] then [] else [ticks[row[0]].node] + RowLinks(ticks, row[1..])
  }

  /** A row of ticks with head `rh`. */
  ghost predicate RowRing(m: Links, ticks: Records, rh: ListNode, row: seq<nat>) {
    RecordsOk(ticks) && Listed(ticks, row) && rh.kind == Anchor && Ring(m, rh, RowLinks(ticks, row))
  }

  lemma {:induction false} RowFrame(m: Links, m': Links, ticks: Records, rh: ListNode, row: seq<nat>)
    requires RowRing(m, ticks, rh, row) && m'.Keys == m.Keys
    requires forall n :: n in m && (n.kind == Anchor || n.kind == TickLink) ==> m'[n] == m[n]
    ensures RowRing(m', ticks, rh, row)
  {
    hide Ring;
    var c := RowLinks(ticks, row);
    forall n | n in [rh] + c ensures n in m && m'[n] == m[n] { RingIn(m, rh, c, n); }
    RingFrame(m, m', rh, c);
  }

  /** Changes to entries and to one list head of a tick do not touch rows. */
  lemma {:induction false} RowConfined(
    m: Links, m': Links, ticks: Records, rh: ListNode, row: seq<nat>, lh: ListNode, ids: set<nat>)
    requires RowRing(m, ticks, rh, row) && lh.kind == TickHead && Confined(m, m', lh, ids)
    ensures RowRing(m', ticks, rh, row)
  {
    hide RowRing;
    RowFrame(m, m', ticks, rh, row);
  }

  /** A head in the main list is replaced by its first follower. */
  lemma {:induction false} SwappedRings(m: Links, m': Links, cells: Cells, lh: ListNode, gs: seq<Group>, i: int,
        ids: set<nat>)
    requires Leading(m, cells, lh, gs, i) && ids == Ids(HeadsOf(gs)) + {gs[i].rest[0].id}
    requires var c, n := LinksOf(cells, HeadsOf(gs)), cells[gs[i].rest[0].id].node;
      OnlyIn(m, m', [lh] + c + [n]) && Ring(m', lh, c[i := n])
    ensures Rings(m', cells, lh, gs[i := Promoted(gs[i])]) && OnlyMain(m, m', lh, ids)
  {
    hide Ring, Carries, OnlyIn, OnlyMain, LinksOf, Separate, UniqueIds, Members, HeadsOf, Ids;
    var g := Promoted(gs[i]);
    OneGroup(gs, i);
    MainOnly(m, m', cells, lh, HeadsOf(gs), [cells[g.head.id].node], ids);
    OwnIds(gs[i]);
    HeadIds(gs, i);
    TailIds(gs[i].rest);
    BehindMain(m, m', cells, lh, ids, g);
    forall k | 0 <= k < |gs| && k != i ensures Carries(m', cells, gs[k]) {
      HeadIds(gs, k);
      OtherGroup(gs, i, k);
      MemberIds(gs[k]);
      MemberIds(gs[i]);
      BehindMain(m, m', cells, lh, ids, gs[k]);
    }
    FewerMembers(gs[i], 0);
    SeparateWith(gs, i, g);
    SameHeads(gs, i, g);
    CarriesHead(m', cells, g);
    LinksSwapped(cells, HeadsOf(gs), i, g.head);
  }

  lemma {:induction false} LinksSwapped(cells: Cells, q: seq<Action>, i: int, a: Action)
    requires Known(cells, q) && 0 <= i < |q| && a.id in cells && cells[a.id].prio == a.prio
    ensures Known(cells, q[i := a]) && LinksOf(cells, q[i := a]) == LinksOf(cells, q)[i := cells[a.id].node]
  {
    hide LinksOf;
  }

  /** The first follower of head number `i` has taken over its list; the head is still in the main list. */
  ghost predicate Leading(m: Links, cells: Cells, lh: ListNode, gs: seq<Group>, i: int) {
    && CellsOk(cells) && Outside(lh) && Separate(gs) && 0 <= i < |gs| && gs[i].rest != [] && gs[i].rest[0].id in cells
    && Known(cells, HeadsOf(gs)) && Ring(m, lh, LinksOf(cells, HeadsOf(gs)))
    && Carries(m, cells, Promoted(gs[i])) && forall k :: 0 <= k < |gs| && k != i ==> Carries(m, cells, gs[k])
  }

  lemma {:induction false} IsLeading(m: Links, m': Links, cells: Cells, lh: ListNode, gs: seq<Group>, i: int)
    requires Rings(m, cells, lh, gs) && 0 <= i < |gs| && gs[i].rest != []
    requires OnlyBehind(m, m', gs[i]) && Carries(m', cells, Promoted(gs[i]))
    ensures Leading(m', cells, lh, gs, i)
    ensures cells[gs[i].rest[0].id].node in m && cells[gs[i].rest[0].id].node !in [lh] + LinksOf(cells, HeadsOf(gs))
  {
    hide Ring, LinksOf, OnlyBehind, Members, UniqueIds, Separate, HeadsOf;
    HeadIds(gs, i);
    MainFrame(m, m', cells, lh, HeadsOf(gs), gs[i]);
    forall k | 0 <= k < |gs| && k != i ensures Carries(m', cells, gs[k]) {
      OtherGroup(gs, i, k);
      BehindOther(m, m', cells, gs[i], gs[k]);
    }
    CarriesHead(m', cells, Promoted(gs[i]));
    FollowerNode(m, cells, lh, gs, i);
  }

  lemma {:induction false} FollowerNode(m: Links, cells: Cells, lh: ListNode, gs: seq<Group>, i: int)
    requires Rings(m, cells, lh, gs) && 0 <= i < |gs| && gs[i].rest != []
    ensures gs[i].rest[0].id in cells && Known(cells, HeadsOf(gs))
    ensures var n := cells[gs[i].rest[0].id].node; n in m && n !in [lh] + LinksOf(cells, HeadsOf(gs))
  {
    hide Ring, LinksOf;
    var g := gs[i];
    assert Carries(m, cells, g);
    var n, c := cells[g.rest[0].id].node, LinksOf(cells, g.rest);
    assert c[0] == n && n in [cells[g.head.id].head] + c;
    RingIn(m, cells[g.head.id].head, c, n);
    HeadIds(gs, i);
    assert g.rest[0].id in Ids(g.rest);
    if n in LinksOf(cells, HeadsOf(gs)) { LinkParts(cells, HeadsOf(gs), n); }
  }

  lemma {:induction false} HeadGroup(m: Links, cells: Cells, lh: ListNode, gs: seq<Group>, i: int)
    requires Rings(m, cells, lh, gs) && 0 <= i < |gs|
    ensures CellsOk(cells) && Outside(lh) && Known(cells, HeadsOf(gs)) && Ring(m, lh, LinksOf(cells, HeadsOf(gs)))
    ensures Carries(m, cells, gs[i]) && UniqueIds(Members(gs[i])) && gs[i].head.id in cells
    ensures var h := cells[gs[i].head.id].head; h in m && (gs[i].rest == [] <==> m[h].next == h)
    ensures gs[i].rest == [] ==> Ring(m, cells[gs[i].head.id].head, [])
    ensures var c := LinksOf(cells, HeadsOf(gs)); |c| == |gs| && c[i] == cells[gs[i].head.id].node
  {
    hide Ring, LinksOf;
    assert HeadsOf(gs)[i] == gs[i].head;
    RingFirst(m, cells[gs[i].head.id].head, LinksOf(cells, gs[i].rest));
  }

  /** Head number `i` leaves the list of its tick; its first follower takes its place. */
  method LeaveMain(ghost ns: set<ListNode>, cells: Cells, ghost lh: ListNode, ghost gs: seq<Group>, ghost i: int,
        at: Cell)
    requires Rings(Snap(ns), cells, lh, gs) && 0 <= i < |gs| && gs[i].head.id in cells && at == cells[gs[i].head.id]
    modifies ns
    ensures Rings(Snap(ns), cells, lh, Deleted(gs, i, 0)) && Ring(Snap(ns), at.head, [])
    ensures at.node.next == null && at.node.prev == null && Confined(old(Snap(ns)), Snap(ns), lh, AllIds(gs))
  {
    hide Ring, LinksOf, OnlyIn, Carries, HeadsOf, OnlyBehind, Known, UniqueIds, Members, At, Rings, OnlyMain, Leading;
    hide Confined;
    hide AllIds, Half;
    ghost var m := Snap(ns);
    HeadGroup(m, cells, lh, gs, i);
    ghost var c := LinksOf(cells, HeadsOf(gs));
    if at.head.next != at.head {
      var da := Promote(ns, cells, gs[i], at);
      ghost var m1 := Snap(ns);
      IsLeading(m, m1, cells, lh, gs, i);
      LeadingRing(m1, cells, lh, gs, i);
      Replace(ns, lh, c, i, at.node, da.node);
      ghost var ids := Ids(HeadsOf(gs)) + {gs[i].rest[0].id};
      SwappedRings(m1, Snap(ns), cells, lh, gs, i, ids);
      HeadFrame(m1, Snap(ns), lh, ids, at.head);
      SwapConfined(m, m1, Snap(ns), lh, gs, i, ids);
    } else {
      var prev := Unlink(ns, lh, c, i, at.node);
      HeadLeft(m, Snap(ns), cells, lh, gs, i);
      HalfGroup(Snap(ns), cells, lh, gs, i);
      LoneGone(Snap(ns), cells, lh, gs, i);
      CutConfined(m, Snap(ns), cells, lh, gs);
    }
  }

  lemma {:induction false} LeadingRing(m: Links, cells: Cells, lh: ListNode, gs: seq<Group>, i: int)
    requires Leading(m, cells, lh, gs, i)
    ensures Known(cells, HeadsOf(gs)) && Ring(m, lh, LinksOf(cells, HeadsOf(gs)))
  {
  }

  /** A list under another head. */
  lemma {:induction false} ReheadRings(m: Links, m': Links, cells: Cells, lh: ListNode, lh': ListNode, gs: seq<Group>)
    requires Rings(m, cells, lh, gs) && Outside(lh')
    requires var c := LinksOf(cells, HeadsOf(gs)); OnlyIn(m, m', [lh'] + c) && Ring(m', lh', c)
    ensures Rings(m', cells, lh', gs) && Confined(m, m', lh', AllIds(gs))
  {
    hide Ring, LinksOf, OnlyIn, Carries, Separate, HeadsOf, Ids, AllIds, Confined, OnlyMain;
    var c := LinksOf(cells, HeadsOf(gs));
    assert [lh'] + c == [lh'] + c + [];
    MainOnly(m, m', cells, lh', HeadsOf(gs), [], Ids(HeadsOf(gs)));
    forall i | 0 <= i < |gs| ensures Carries(m', cells, gs[i]) {
      HeadIds(gs, i);
      BehindMain(m, m', cells, lh', Ids(HeadsOf(gs)), gs[i]);
    }
    CutConfined(m, m', cells, lh', gs);
  }

  /**
   A timer is alone in its tick exactly if its node is the first and the last of the list and nothing is
   behind it.
   */
  lemma {:induction false} Alone(m: Links, cells: Cells, lh: ListNode, gs: seq<Group>, i: int)
    requires Rings(m, cells, lh, gs) && 0 <= i < |gs| && gs[i].head.id in cells
    ensures lh in m && cells[gs[i].head.id].head in m
    ensures var at := cells[gs[i].head.id];
      Deleted(gs, i, 0) == [] <==> m[lh].next == at.node && m[lh].prev == at.node && m[at.head].next == at.head
  {
    hide Ring, LinksOf, HeadsOf, Carries;
    HeadGroup(m, cells, lh, gs, i);
    var c := LinksOf(cells, HeadsOf(gs));
    RingFirst(m, lh, c);
    RingDistinct(m, lh, c);
  }

  lemma {:induction false} RingDistinct(m: Links, h: ListNode, c: seq<ListNode>)
    requires Ring(m, h, c)
    ensures forall i, j :: 0 <= i < j < |c| ==> c[i] != c[j]
  {
    var q := [h] + c;
    assert forall i :: 0 <= i < |c| ==> c[i] == q[i + 1];
  }

  /** The entries that are left are others. */
  lemma {:induction false} LeftIds(gs: seq<Group>, i: int)
    requires Separate(gs) && 0 <= i < |gs|
    ensures var r := Deleted(gs, i, 0);
      AllIds(r) <= AllIds(gs) - {gs[i].head.id} && (r != [] ==> r[0].head.id in AllIds(r))
  {
    hide Members, UniqueIds, Ids, Separate;
    var r, g, ids := Deleted(gs, i, 0), gs[i], AllIds(gs) - {gs[i].head.id};
    forall k | 0 <= k < |r| ensures Ids(Members(r[k])) <= ids {
      if g.rest != [] && k == i {
        LeftBehind(gs, i);
      } else {
        var j := if g.rest != [] || k < i then k else k + 1;
        assert r[k] == gs[j];
        OtherGroup(gs, i, j);
        MemberIds(g);
      }
    }
    AllIdsUnion(r, ids);
    if r != [] { MemberIds(r[0]); }
  }

  lemma {:induction false} LeftBehind(gs: seq<Group>, i: int)
    requires Separate(gs) && 0 <= i < |gs| && gs[i].rest != []
    ensures Ids(Members(Promoted(gs[i]))) <= AllIds(gs) - {gs[i].head.id}
  {
    hide UniqueIds, Ids, Separate;
    var g := gs[i];
    OneGroup(gs, i);
    MemberIds(g);
    HeadNotBehind(g);
    assert Members(Promoted(g)) == g.rest;
  }

  lemma {:induction false} RowSwapped(ticks: Records, row: seq<nat>, k: int, x: nat)
    requires Listed(ticks, row) && 0 <= k < |row| && x in ticks
    ensures Listed(ticks, row[k := x]) && RowLinks(ticks, row[k := x]) == RowLinks(ticks, row)[k := ticks[x].node]
  {
    hide RowLinks;
  }

  lemma {:induction false} RowCut(ticks: Records, row: seq<nat>, k: int)
    requires Listed(ticks, row) && 0 <= k < |row|
    ensures Listed(ticks, Cut(row, k)) && RowLinks(ticks, Cut(row, k)) == Cut(RowLinks(ticks, row), k)
  {
    hide RowLinks;
  }

  /** A record that is not in the row. */
  lemma {:induction false} NotInRow(ticks: Records, rh: ListNode, row: seq<nat>, x: nat)
    requires RecordsOk(ticks) && Listed(ticks, row) && rh.kind == Anchor && x in ticks && x !in row
    ensures ticks[x].node !in [rh] + RowLinks(ticks, row)
  {
    hide RowLinks;
    var c := RowLinks(ticks, row);
    forall i | 0 <= i < |c| ensures c[i] != ticks[x].node { assert row[i] in row && c[i].owner == row[i]; }
  }

  /** Changes to a row do not touch lists of actions. */
  lemma {:induction false} RowOnly(m: Links, m': Links, cells: Cells, lh: ListNode, gs: seq<Group>,
      ticks: Records, rh: ListNode, row: seq<nat>, r: seq<ListNode>)
    requires Rings(m, cells, lh, gs) && lh.kind == TickHead && RecordsOk(ticks) && Listed(ticks, row)
    requires rh.kind == Anchor
    requires OnlyIn(m, m', [rh] + RowLinks(ticks, row) + r) && forall n :: n in r ==> n.kind == TickLink
    ensures Rings(m', cells, lh, gs)
  {
    hide Rings, RowLinks;
    forall n | n in m && (n == lh || PartOf(n, AllIds(gs))) ensures m'[n] == m[n] {
      assert n !in [rh] + RowLinks(ticks, row) + r;
    }
    RingsFrame(m, m', cells, lh, gs);
  }

  /** The list moves to the head that timer `nt` owns. */
  method HandHead(ghost ns: set<ListNode>, cells: Cells, ticks: Records, lh: ListNode, ghost gs: seq<Group>,
      ghost rh: ListNode, ghost row: seq<nat>) returns (nt: nat)
    requires Rings(Snap(ns), cells, lh, gs) && gs != [] && RowRing(Snap(ns), ticks, rh, row) && lh.kind == TickHead
    requires gs[0].head.id in ticks && ticks[gs[0].head.id].head in ns && ticks[gs[0].head.id].head != lh
    modifies ns
    ensures nt == gs[0].head.id && Rings(Snap(ns), cells, ticks[nt].head, gs) && RowRing(Snap(ns), ticks, rh, row)
    ensures Confined(old(Snap(ns)), Snap(ns), ticks[nt].head, AllIds(gs))
  {
    hide Ring, LinksOf, OnlyIn, HeadsOf, Known, Members, Rings, Confined, AllIds, RowRing, Carries, UniqueIds;
    ghost var m := Snap(ns);
    HeadGroup(m, cells, lh, gs, 0);
    ghost var c := LinksOf(cells, HeadsOf(gs));
    RingFirst(m, lh, c);
    nt := lh.next.owner;
    RecordKinds(m, ticks, rh, row, nt);
    NewHeadNode(cells, lh, HeadsOf(gs), ticks[nt].head);
    Rehead(ns, lh, c, ticks[nt].head);
    ReheadRings(m, Snap(ns), cells, lh, ticks[nt].head, gs);
    RowConfined(m, Snap(ns), ticks, rh, row, ticks[nt].head, AllIds(gs));
  }

  lemma {:induction false} RecordKinds(m: Links, ticks: Records, rh: ListNode, row: seq<nat>, id: nat)
    requires RowRing(m, ticks, rh, row) && id in ticks
    ensures RecordsOk(ticks) && Listed(ticks, row) && rh.kind == Anchor && Ring(m, rh, RowLinks(ticks, row))
    ensures ticks[id].node.kind == TickLink && ticks[id].head.kind == TickHead && ticks[id].head.owner == id
  {
  }

  lemma {:induction false} NewHeadNode(cells: Cells, lh: ListNode, q: seq<Action>, h: ListNode)
    requires CellsOk(cells) && Known(cells, q) && Outside(h) && h != lh
    ensures h !in [lh] + LinksOf(cells, q)
  {
    if h in LinksOf(cells, q) { LinkParts(cells, q, h); }
  }

  /** What is known of the timers of one tick: they have records, and only `id` is in the row. */
  ghost predicate TickTimers(ns: set<ListNode>, ticks: Records, row: seq<nat>, ids: set<nat>, id: nat) {
    && id in ticks && id in ids && (forall x :: x in ids ==> x in ticks && ticks[x].node in ns && ticks[x].head in ns)
    && forall x :: x in ids && x != id ==> x !in row
  }

  /** The first head that is left gets the list and the place in the row. */
  method TakeOver(ghost ns: set<ListNode>, cells: Cells, ticks: Records, ghost rh: ListNode, ghost row: seq<nat>,
      ghost k: int, ghost r: seq<Group>, tt: Record)
    requires 0 <= k < |row| && row[k] in ticks && tt == ticks[row[k]] && r != []
    requires Rings(Snap(ns), cells, tt.head, r) && RowRing(Snap(ns), ticks, rh, row)
    requires var nt := r[0].head.id; nt in ticks && nt !in row && ticks[nt].node in ns && ticks[nt].head in ns
    modifies ns
    ensures var nt := r[0].head.id;
      Rings(Snap(ns), cells, ticks[nt].head, r) && RowRing(Snap(ns), ticks, rh, row[k := nt])
    ensures tt.node.next == null && tt.node.prev == null
    ensures forall n :: n in ns && n.kind == EntryLink && n.owner !in AllIds(r) ==>
      n.next == old(n.next) && n.prev == old(n.prev)
  {
    hide Ring, LinksOf, OnlyIn, HeadsOf, Known, Members, Rings, Confined, AllIds, RowRing, RowLinks, Carries, UniqueIds;
    ghost var m := Snap(ns);
    RecordKinds(m, ticks, rh, row, row[k]);
    RecordKinds(m, ticks, rh, row, r[0].head.id);
    var nt := HandHead(ns, cells, ticks, tt.head, r, rh, row);
    ghost var m1 := Snap(ns);
    RecordKinds(m1, ticks, rh, row, nt);
    NotInRow(ticks, rh, row, nt);
    Replace(ns, rh, RowLinks(ticks, row), k, tt.node, ticks[nt].node);
    RowOnly(m1, Snap(ns), cells, ticks[nt].head, r, ticks, rh, row, [ticks[nt].node]);
    IsRow(Snap(ns), ticks, rh, row, k, nt);
    Loose(m, m1, Snap(ns), ticks, rh, row, nt, AllIds(r));
    assert forall n :: n in ns ==> n in m;
  }

  lemma {:induction false} Loose(a: Links, b: Links, c: Links, ticks: Records, rh: ListNode, row: seq<nat>, nt: nat,
        ids: set<nat>)
    requires RecordsOk(ticks) && Listed(ticks, row) && rh.kind == Anchor && nt in ticks
    requires Confined(a, b, ticks[nt].head, ids) && OnlyIn(b, c, [rh] + RowLinks(ticks, row) + [ticks[nt].node])
    ensures a.Keys == c.Keys && forall n :: n in a && n.kind == EntryLink && n.owner !in ids ==> c[n] == a[n]
  {
    hide RowLinks;
    forall n | n in a && n.kind == EntryLink && n.owner !in ids ensures c[n] == a[n] {
      assert n !in [rh] + RowLinks(ticks, row) + [ticks[nt].node];
    }
  }

  /**
   A timer that stands for its tick leaves it before the tick is due.  Unless it was alone, the list
   that deletion leaves goes over to another timer of the tick.
   */
  method LeaveLinks(ghost ns: set<ListNode>, cells: Cells, ticks: Records, ghost rh: ListNode, ghost row: seq<nat>,
      ghost k: int, ghost gs: seq<Group>, ghost i: int, id: nat)
    requires id in cells && id in ticks && 0 <= i < |gs| && gs[i].head.id == id && 0 <= k < |row| && row[k] == id
    requires Rings(Snap(ns), cells, ticks[id].head, gs) && RowRing(Snap(ns), ticks, rh, row)
    requires TickTimers(ns, ticks, row, AllIds(gs), id)
    modifies ns
    ensures var r := Deleted(gs, i, 0);
      if r == [] then
        RowRing(Snap(ns), ticks, rh, Cut(row, k)) && Rings(Snap(ns), cells, ticks[id].head, gs)
      else
        && r[0].head.id in ticks && Rings(Snap(ns), cells, ticks[r[0].head.id].head, r)
        && RowRing(Snap(ns), ticks, rh, row[k := r[0].head.id])
        && cells[id].node.next == null && cells[id].node.prev == null
    ensures ticks[id].node.next == null && ticks[id].node.prev == null
  {
    hide Ring, LinksOf, OnlyIn, HeadsOf, Known, Rings, Confined, AllIds, RowRing, RowLinks, Carries, Deleted, Separate;
    var at, tt := cells[id], ticks[id];
    ghost var m := Snap(ns);
    Alone(m, cells, tt.head, gs, i);
    RecordKinds(m, ticks, rh, row, id);
    if tt.head.next != at.node || tt.head.prev != at.node || at.head.next != at.head {
      RingsStatic(m, cells, tt.head, gs);
      EntryNode(m, cells, tt.head, gs, i);
      LeftIds(gs, i);
      LeaveMain(ns, cells, tt.head, gs, i, at);
      RowConfined(m, Snap(ns), ticks, rh, row, tt.head, AllIds(gs));
      TakeOver(ns, cells, ticks, rh, row, k, Deleted(gs, i, 0), tt);
    } else {
      var prev := Unlink(ns, rh, RowLinks(ticks, row), k, tt.node);
      assert [rh] + RowLinks(ticks, row) == [rh] + RowLinks(ticks, row) + [];
      RowOnly(m, Snap(ns), cells, tt.head, gs, ticks, rh, row, []);
      RowIsCut(Snap(ns), ticks, rh, row, k);
    }
  }

  lemma {:induction false} EntryNode(m: Links, cells: Cells, lh: ListNode, gs: seq<Group>, i: int)
    requires Rings(m, cells, lh, gs) && 0 <= i < |gs|
    ensures gs[i].head.id in cells
    ensures var n := cells[gs[i].head.id].node; n in m && n.kind == EntryLink && n.owner == gs[i].head.id
  {
    hide Ring, LinksOf;
    HeadGroup(m, cells, lh, gs, i);
    var c := LinksOf(cells, HeadsOf(gs));
    RingIn(m, lh, c, c[i]);
  }

  lemma {:induction false} IsRow(m: Links, ticks: Records, rh: ListNode, row: seq<nat>, k: int, x: nat)
    requires RecordsOk(ticks) && Listed(ticks, row) && rh.kind == Anchor && 0 <= k < |row| && x in ticks
    requires Ring(m, rh, RowLinks(ticks, row)[k := ticks[x].node])
    ensures RowRing(m, ticks, rh, row[k := x])
  {
    hide Ring;
    RowSwapped(ticks, row, k, x);
  }

  lemma {:induction false} RowIsCut(m: Links, ticks: Records, rh: ListNode, row: seq<nat>, k: int)
    requires RecordsOk(ticks) && Listed(ticks, row) && rh.kind == Anchor && 0 <= k < |row|
    requires Ring(m, rh, RowLinks(ticks, row)[..k] + RowLinks(ticks, row)[k + 1..])
    ensures RowRing(m, ticks, rh, Cut(row, k))
  {
    hide Ring;
    RowCut(ticks, row, k);
  }
}
