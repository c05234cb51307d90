/**
 Adding to and deleting from two-level priority lists on links
 (include/ds/skiplist.h, kernel/generic/def_actions.c).
 */
module PrioLinks {
  import opened ListRings
  import opened PrioLists
  import opened PrioOps
  import opened PrioRings

  /** Nothing has changed but the head of a list and the links of some entries. */
  ghost predicate OnlyMain(m: Links, m': Links, lh: ListNode, ids: set<nat>) {
    m'.Keys == m.Keys && forall n :: n in m && n != lh && !(n.kind == EntryLink && n.owner in ids) ==> m'[n] == m[n]
  }

  lemma {:induction false} MainOnly(m: Links, m': Links, cells: Cells, lh: ListNode, q: seq<Action>, r: seq<ListNode>,
        ids: set<nat>)
    requires CellsOk(cells) && Known(cells, q) && Ids(q) <= ids && OnlyIn(m, m', [lh] + LinksOf(cells, q) + r)
    requires forall n :: n in r ==> n.kind == EntryLink && n.owner in ids
    ensures OnlyMain(m, m', lh, ids)
  {
    forall n | n in m && n != lh && !(n.kind == EntryLink && n.owner in ids) ensures m'[n] == m[n] {
      if n in LinksOf(cells, q) { LinkParts(cells, q, n); }
      assert n !in [lh] + LinksOf(cells, q) + r;
    }
  }

  /** What is behind a head is not touched by changes to the links of other entries. */
  lemma {:induction false} BehindMain(m: Links, m': Links, cells: Cells, lh: ListNode, ids: set<nat>, g: Group)
    requires CellsOk(cells) && Outside(lh) && Carries(m, cells, g) && OnlyMain(m, m', lh, ids) && ids !! Ids(g.rest)
    ensures Carries(m', cells, g)
  {
    BehindFrame(m, m', cells, g);
  }

  /** What is behind one head is not touched by changes behind another. */
  lemma {:induction false} BehindOther(m: Links, m': Links, cells: Cells, g: Group, k: Group)
    requires CellsOk(cells) && Carries(m, cells, k) && OnlyBehind(m, m', g) && Ids(Members(g)) !! Ids(Members(k))
    ensures Carries(m', cells, k)
  {
    MemberIds(g);
    MemberIds(k);
    BehindFrame(m, m', cells, k);
  }

  /** The main list is not touched by changes behind a head. */
  lemma {:induction false} MainFrame(m: Links, m': Links, cells: Cells, lh: ListNode, q: seq<Action>, g: Group)
    requires CellsOk(cells) && Outside(lh) && Known(cells, q) && Ring(m, lh, LinksOf(cells, q)) && OnlyBehind(m, m', g)
    requires Ids(q) !! Ids(g.rest)
    ensures Ring(m', lh, LinksOf(cells, q))
  {
    hide Ring;
    var c := LinksOf(cells, q);
    forall n | n in [lh] + c ensures n in m && m'[n] == m[n] {
      RingIn(m, lh, c, n);
      if n in c { LinkParts(cells, q, n); }
    }
    RingFrame(m, m', lh, c);
  }

  /** Heads are not among the followers. */
  lemma {:induction false} HeadIds(gs: seq<Group>, i: int)
    requires Separate(gs) && 0 <= i < |gs|
    ensures Ids(HeadsOf(gs)) !! Ids(gs[i].rest)
  {
    forall id | id in Ids(HeadsOf(gs)) ensures id !in Ids(gs[i].rest) {
      var k :| 0 <= k < |gs| && gs[k].head.id == id;
      MemberIds(gs[i]);
      MemberIds(gs[k]);
      if k != i { OtherGroup(gs, i, k); } else { HeadNotBehind(gs[i]); }
    }
  }

  lemma {:induction false} HeadNotBehind(g: Group)
    requires UniqueIds(Members(g))
    ensures g.head.id !in Ids(g.rest)
  {
    assert Members(g)[0] == g.head;
    forall j | 0 <= j < |g.rest| ensures g.rest[j].id != g.head.id { assert Members(g)[j + 1] == g.rest[j]; }
  }

  lemma {:induction false} HeadsAll(gs: seq<Group>)
    ensures Ids(HeadsOf(gs)) <= AllIds(gs)
  {
    forall id | id in Ids(HeadsOf(gs)) ensures id in AllIds(gs) {
      var i :| 0 <= i < |gs| && gs[i].head.id == id;
      MemberIds(gs[i]);
    }
  }

  lemma {:induction false} BehindConfined(m: Links, m': Links, lh: ListNode, k: Group, ids: set<nat>)
    requires OnlyBehind(m, m', k) && Ids(Members(k)) <= ids
    ensures Confined(m, m', lh, ids)
  {
    MemberIds(k);
  }

  /** What has changed belongs to the list. */
  lemma {:induction false} SwapConfined(a: Links, b: Links, c: Links, lh: ListNode, gs: seq<Group>, i: int,
        ids: set<nat>)
    requires 0 <= i < |gs| && gs[i].rest != [] && ids == Ids(HeadsOf(gs)) + {gs[i].rest[0].id}
    requires OnlyBehind(a, b, gs[i]) && OnlyMain(b, c, lh, ids)
    ensures Confined(a, c, lh, AllIds(gs))
  {
    HeadsAll(gs);
    MemberIds(gs[i]);
    assert gs[i].rest[0].id in Ids(gs[i].rest);
  }

  lemma {:induction false} CutConfined(m: Links, m': Links, cells: Cells, lh: ListNode, gs: seq<Group>)
    requires CellsOk(cells) && Known(cells, HeadsOf(gs)) && OnlyIn(m, m', [lh] + LinksOf(cells, HeadsOf(gs)))
    ensures Confined(m, m', lh, AllIds(gs))
  {
    HeadsAll(gs);
    var c := LinksOf(cells, HeadsOf(gs));
    forall n | n in m && n != lh && !PartOf(n, AllIds(gs)) ensures m'[n] == m[n] {
      if n in c { LinkParts(cells, HeadsOf(gs), n); }
      assert n !in [lh] + c;
    }
  }

  ghost function Cut<T>(q: seq<T>, i: int): seq<T>
    requires 0 <= i < |q|
  {
    q[..i] + q[i + 1..]
  }

  lemma {:induction false} LinksCut(cells: Cells, q: seq<Action>, i: int)
    requires Known(cells, q) && 0 <= i < |q|
    ensures Known(cells, Cut(q, i)) && LinksOf(cells, Cut(q, i)) == Cut(LinksOf(cells, q), i)
  {
  }

  lemma {:induction false} CutIdsLess(q: seq<Action>, i: int)
    requires 0 <= i < |q|
    ensures Ids(Cut(q, i)) <= Ids(q)
  {
    var r := Cut(q, i);
    forall id | id in Ids(r) ensures id in Ids(q) {
      var k :| 0 <= k < |r| && r[k].id == id;
      assert q[if k < i then k else k + 1].id == id;
    }
  }

  /** Head number `i` has left the main list; all else is in place. */
  ghost predicate Half(m: Links, cells: Cells, lh: ListNode, gs: seq<Group>, i: int) {
    && CellsOk(cells) && Outside(lh) && Separate(gs) && Known(cells, HeadsOf(gs)) && 0 <= i < |gs|
    && Known(cells, Cut(HeadsOf(gs), i)) && Ring(m, lh, LinksOf(cells, Cut(HeadsOf(gs), i)))
    && forall k :: 0 <= k < |gs| ==> Carries(m, cells, gs[k])
  }

  lemma {:induction false} HeadLeft(m: Links, m': Links, cells: Cells, lh: ListNode, gs: seq<Group>, i: int)
    requires Rings(m, cells, lh, gs) && 0 <= i < |gs|
    requires var c := LinksOf(cells, HeadsOf(gs)); OnlyIn(m, m', [lh] + c) && Ring(m', lh, c[..i] + c[i + 1..])
    ensures Half(m', cells, lh, gs, i)
  {
    hide Ring, Separate, Carries;
    var q := HeadsOf(gs);
    assert [lh] + LinksOf(cells, q) == [lh] + LinksOf(cells, q) + [];
    MainOnly(m, m', cells, lh, q, [], Ids(q));
    LinksCut(cells, q, i);
    forall k | 0 <= k < |gs| ensures Carries(m', cells, gs[k]) {
      HeadIds(gs, k);
      BehindMain(m, m', cells, lh, Ids(q), gs[k]);
    }
  }

  lemma {:induction false} SeparateLess(gs: seq<Group>, i: int)
    requires Separate(gs) && 0 <= i < |gs|
    ensures Separate(gs[..i] + gs[i + 1..])
  {
    var r := gs[..i] + gs[i + 1..];
    assert forall k :: 0 <= k < |r| ==> r[k] == gs[if k < i then k else k + 1];
  }

  lemma {:induction false} HeadsCut(gs: seq<Group>, i: int)
    requires 0 <= i < |gs|
    ensures HeadsOf(gs[..i] + gs[i + 1..]) == Cut(HeadsOf(gs), i)
  {
  }

  /** A head without followers is gone for good. */
  lemma {:induction false} LoneGone(m: Links, cells: Cells, lh: ListNode, gs: seq<Group>, i: int)
    requires Half(m, cells, lh, gs, i)
    ensures Rings(m, cells, lh, gs[..i] + gs[i + 1..])
  {
    hide Ring, Separate, Carries, HeadsOf, LinksOf, Known, Cut;
    SeparateLess(gs, i);
    HeadsCut(gs, i);
    var r := gs[..i] + gs[i + 1..];
    forall k | 0 <= k < |r| ensures Carries(m, cells, r[k]) {
      assert r[k] == gs[if k < i then k else k + 1];
    }
  }

  /** A group with fewer or other entries, all of them its own. */
  lemma {:induction false} SeparateWith(gs: seq<Group>, i: int, g: Group)
    requires Separate(gs) && 0 <= i < |gs| && UniqueIds(Members(g)) && Ids(Members(g)) <= Ids(Members(gs[i]))
    ensures Separate(gs[i := g])
  {
    var r := gs[i := g];
    forall a, b | 0 <= a < b < |r| ensures Ids(Members(r[a])) !! Ids(Members(r[b])) {
      assert Ids(Members(gs[a])) !! Ids(Members(gs[b]));
    }
  }

  lemma {:induction false} FewerMembers(g: Group, j: int)
    requires UniqueIds(Members(g)) && 0 <= j <= |g.rest| && (j > 0 || g.rest != [])
    ensures var h := if j > 0 then Group(g.head, g.rest[..j - 1] + g.rest[j..]) else Group(g.rest[0], g.rest[1..]);
      Members(h) == Cut(Members(g), j) && UniqueIds(Members(h)) && Ids(Members(h)) <= Ids(Members(g))
  {
    CutIdsLess(Members(g), j);
    var r, q := Cut(Members(g), j), Members(g);
    assert forall k :: 0 <= k < |r| ==> r[k] == q[if k < j then k else k + 1];
  }

  lemma {:induction false} OneGroup(gs: seq<Group>, i: int)
    requires Separate(gs) && 0 <= i < |gs|
    ensures UniqueIds(Members(gs[i]))
  {
  }

  lemma {:induction false} GroupShrinks(m: Links, m': Links, cells: Cells, g: Group, j: int)
    requires CellsOk(cells) && Carries(m, cells, g) && UniqueIds(Members(g)) && 0 < j <= |g.rest|
    requires var h, c := cells[g.head.id].head, LinksOf(cells, g.rest);
      OnlyIn(m, m', [h] + c) && Ring(m', h, c[..j - 1] + c[j..])
    ensures Carries(m', cells, Group(g.head, g.rest[..j - 1] + g.rest[j..])) && OnlyBehind(m, m', g)
    ensures Ring(m', cells[g.rest[j - 1].id].head, [])
  {
    hide Ring, LinksOf, OnlyIn, UniqueIds, Members, OnlyBehind;
    RingBehind(m, m', cells, g);
    LinksCut(cells, g.rest, j - 1);
    forall k | 0 <= k < |g.rest| ensures Ring(m', cells[g.rest[k].id].head, []) { FollowerHead(m, m', cells, g, k); }
    var r := g.rest[..j - 1] + g.rest[j..];
    assert forall k :: 0 <= k < |r| ==> r[k] == g.rest[if k < j - 1 then k else k + 1];
  }

  /** A follower has left the list of its head. */
  lemma {:induction false} FollowerLeft(m: Links, m': Links, cells: Cells, lh: ListNode, gs: seq<Group>, i: int, j: int)
    requires Rings(m, cells, lh, gs) && 0 <= i < |gs| && 0 < j <= |gs[i].rest|
    requires gs[i].head.id in cells && Known(cells, gs[i].rest) && gs[i].rest[j - 1].id in cells
    requires var h, c := cells[gs[i].head.id].head, LinksOf(cells, gs[i].rest);
      OnlyIn(m, m', [h] + c) && Ring(m', h, c[..j - 1] + c[j..])
    ensures Rings(m', cells, lh, Deleted(gs, i, j)) && Ring(m', cells[gs[i].rest[j - 1].id].head, [])
    ensures Confined(m, m', lh, AllIds(gs))
  {
    hide Ring, LinksOf, OnlyIn, UniqueIds, Members, Carries, Separate, HeadsOf, OnlyBehind, Ids, Confined, AllIds;
    var g := gs[i];
    assert UniqueIds(Members(g)) by { OneGroup(gs, i); }
    var g' := Group(g.head, g.rest[..j - 1] + g.rest[j..]);
    GroupShrinks(m, m', cells, g, j);
    HeadIds(gs, i);
    MainFrame(m, m', cells, lh, HeadsOf(gs), g);
    forall k | 0 <= k < |gs| && k != i ensures Carries(m', cells, gs[k]) {
      OtherGroup(gs, i, k);
      BehindOther(m, m', cells, g, gs[k]);
    }
    BehindConfined(m, m', lh, g, AllIds(gs));
    FewerMembers(g, j);
    SeparateWith(gs, i, g');
    SameHeadRings(m', cells, lh, gs, i, g');
  }

  /** Only the list behind head number `i` has changed. */
  lemma {:induction false} SameHeadRings(m: Links, cells: Cells, lh: ListNode, gs: seq<Group>, i: int, g: Group)
    requires CellsOk(cells) && Outside(lh) && 0 <= i < |gs| && g.head == gs[i].head && Separate(gs[i := g])
    requires Known(cells, HeadsOf(gs)) && Ring(m, lh, LinksOf(cells, HeadsOf(gs)))
    requires Carries(m, cells, g) && forall k :: 0 <= k < |gs| && k != i ==> Carries(m, cells, gs[k])
    ensures Rings(m, cells, lh, gs[i := g])
  {
    hide Ring, LinksOf, Carries, Separate;
    SameHeads(gs, i, g);
    assert HeadsOf(gs)[i := g.head] == HeadsOf(gs);
  }

  lemma {:induction false} SameHeads(gs: seq<Group>, i: int, g: Group)
    requires 0 <= i < |gs|
    ensures HeadsOf(gs[i := g]) == HeadsOf(gs)[i := g.head]
  {
  }

  /** Deletes an entry; the first follower of a deleted head takes its place. */
  method SkiplistDel(ghost ns: set<ListNode>, cells: Cells, ghost lh: ListNode, ghost gs: seq<Group>, ghost i: int,
        ghost j: int, id: nat)
    requires Rings(Snap(ns), cells, lh, gs) && 0 <= i < |gs| && 0 <= j <= |gs[i].rest| && Members(gs[i])[j].id == id
    requires id in cells
    modifies ns
    ensures Rings(Snap(ns), cells, lh, Deleted(gs, i, j)) && Ring(Snap(ns), cells[id].head, [])
    ensures cells[id].node.next == null && cells[id].node.prev == null
    ensures Confined(old(Snap(ns)), Snap(ns), lh, AllIds(gs))
  {
    hide Ring, LinksOf, OnlyIn, Separate, Carries, HeadsOf, Half, Rings, Known, At, Confined, AllIds;
    var at := cells[id];
    ghost var m := Snap(ns);
    ghost var h, c, p := Where(m, cells, lh, gs, i, j);
    RingIn(m, h, c, c[p]);
    var prev := Unlink(ns, h, c, p, at.node);
    ghost var m1 := Snap(ns);
    if j > 0 {
      FollowerLeft(m, m1, cells, lh, gs, i, j);
      RingFirst(m1, at.head, []);
    } else {
      HeadLeft(m, m1, cells, lh, gs, i);
      StaysConfined(m, m1, cells, lh, gs);
      HalfGroup(m1, cells, lh, gs, i);
      HalfStatic(m1, cells, lh, gs, i);
      SamePlace(cells, lh, HeadsOf(gs), i);
      if gs[i].rest == [] { LoneGone(m1, cells, lh, gs, i); }
    }
    if at.head.next != at.head {
      PromoteHead(ns, cells, lh, gs, i, at, prev);
      ConfinedThen(m, m1, Snap(ns), lh, AllIds(gs));
    }
  }

  lemma {:induction false} StaysConfined(m: Links, m': Links, cells: Cells, lh: ListNode, gs: seq<Group>)
    requires Rings(m, cells, lh, gs) && Known(cells, HeadsOf(gs)) && OnlyIn(m, m', [lh] + LinksOf(cells, HeadsOf(gs)))
    ensures Confined(m, m', lh, AllIds(gs))
  {
    hide Ring, LinksOf, Separate, Carries, HeadsOf;
    CutConfined(m, m', cells, lh, gs);
  }

  lemma {:induction false} ConfinedThen(a: Links, b: Links, c: Links, lh: ListNode, ids: set<nat>)
    requires Confined(a, b, lh, ids) && Confined(b, c, lh, ids)
    ensures Confined(a, c, lh, ids)
  {
  }

  lemma {:induction false} SamePlace(cells: Cells, lh: ListNode, q: seq<Action>, i: int)
    requires Known(cells, q) && 0 <= i < |q| && Known(cells, Cut(q, i))
    ensures At(lh, LinksOf(cells, q), i) == At(lh, LinksOf(cells, Cut(q, i)), i)
  {
  }

  /** The list an entry stands in, and its place. */
  lemma {:induction false} Where(m: Links, cells: Cells, lh: ListNode, gs: seq<Group>, i: int, j: int)
    returns (h: ListNode, c: seq<ListNode>, p: nat)
    requires Rings(m, cells, lh, gs) && 0 <= i < |gs| && 0 <= j <= |gs[i].rest| && Members(gs[i])[j].id in cells
    ensures Ring(m, h, c) && p < |c| && c[p] == cells[Members(gs[i])[j].id].node
    ensures j == 0 ==> Known(cells, HeadsOf(gs)) && h == lh && c == LinksOf(cells, HeadsOf(gs)) && p == i
    ensures gs[i].head.id in cells && Known(cells, gs[i].rest)
    ensures j > 0 ==> h == cells[gs[i].head.id].head && c == LinksOf(cells, gs[i].rest) && p == j - 1
  {
    hide Ring, LinksOf;
    assert Carries(m, cells, gs[i]);
    if j == 0 {
      h, c, p := lh, LinksOf(cells, HeadsOf(gs)), i;
    } else {
      h, c, p := cells[gs[i].head.id].head, LinksOf(cells, gs[i].rest), j - 1;
    }
  }

  /** Takes one node out of its list, and tells what was before it. */
  method Unlink(ghost ns: set<ListNode>, ghost h: ListNode, ghost c: seq<ListNode>, ghost p: nat, node: ListNode)
    returns (prev: ListNode)
    requires Ring(Snap(ns), h, c) && p < |c| && c[p] == node
    modifies ns
    ensures prev == At(h, c, p) && Ring(Snap(ns), h, c[..p] + c[p + 1..]) && OnlyIn(old(Snap(ns)), Snap(ns), [h] + c)
    ensures node.next == null && node.prev == null
  {
    hide Ring, OnlyIn, Chain;
    Bounds(Snap(ns), h, c, p, p);
    prev := node.prev;
    Remove(ns, h, c, p, p, node, node);
  }

  lemma {:induction false} HalfGroup(m: Links, cells: Cells, lh: ListNode, gs: seq<Group>, i: int)
    requires Half(m, cells, lh, gs, i)
    ensures Carries(m, cells, gs[i]) && UniqueIds(Members(gs[i])) && Known(cells, gs[i].rest)
    ensures var h := cells[gs[i].head.id].head; h in m && (gs[i].rest == [] <==> m[h].next == h)
    ensures gs[i].rest == [] ==> Ring(m, cells[gs[i].head.id].head, [])
  {
    hide Ring;
    RingFirst(m, cells[gs[i].head.id].head, LinksOf(cells, gs[i].rest));
  }

  function Promoted(g: Group): Group
    requires g.rest != []
  {
    Group(g.rest[0], g.rest[1..])
  }

  /** The first follower of head number `i` has taken over its list, but is not in the main list yet. */
  ghost predicate Led(m: Links, cells: Cells, lh: ListNode, gs: seq<Group>, i: int) {
    && CellsOk(cells) && Outside(lh) && Separate(gs) && 0 <= i < |gs| && gs[i].rest != [] && gs[i].rest[0].id in cells
    && Known(cells, Cut(HeadsOf(gs), i)) && Ring(m, lh, LinksOf(cells, Cut(HeadsOf(gs), i)))
    && Carries(m, cells, Promoted(gs[i])) && forall k :: 0 <= k < |gs| && k != i ==> Carries(m, cells, gs[k])
  }

  lemma {:induction false} IsLed(m: Links, m': Links, cells: Cells, lh: ListNode, gs: seq<Group>, i: int)
    requires Half(m, cells, lh, gs, i) && gs[i].rest != [] && OnlyBehind(m, m', gs[i])
    requires Carries(m', cells, Promoted(gs[i]))
    ensures Led(m', cells, lh, gs, i)
  {
    hide Ring, LinksOf, Carries, OnlyBehind, Members, UniqueIds;
    HeadIds(gs, i);
    CutIdsLess(HeadsOf(gs), i);
    MainFrame(m, m', cells, lh, Cut(HeadsOf(gs), i), gs[i]);
    forall k | 0 <= k < |gs| && k != i ensures Carries(m', cells, gs[k]) {
      OtherGroup(gs, i, k);
      BehindOther(m, m', cells, gs[i], gs[k]);
    }
    assert Promoted(gs[i]).head.id in cells by { CarriesHead(m', cells, Promoted(gs[i])); }
  }

  lemma {:induction false} CarriesHead(m: Links, cells: Cells, g: Group)
    requires Carries(m, cells, g)
    ensures g.head.id in cells && cells[g.head.id].prio == g.head.prio
  {
  }

  /** The node of the first follower is free for the main list. */
  lemma {:induction false} FreeNode(m: Links, cells: Cells, gs: seq<Group>, i: int, lh: ListNode)
    requires Half(m, cells, lh, gs, i) && gs[i].rest != []
    ensures gs[i].rest[0].id in cells
    ensures var n := cells[gs[i].rest[0].id].node; n in m && n !in [lh] + LinksOf(cells, Cut(HeadsOf(gs), i))
  {
    hide Ring, LinksOf;
    var g, q := gs[i], Cut(HeadsOf(gs), i);
    assert Carries(m, cells, g);
    var n, c := cells[g.rest[0].id].node, LinksOf(cells, g.rest);
    assert c[0] == n && n in [cells[g.head.id].head] + c;
    RingIn(m, cells[g.head.id].head, c, n);
    HeadIds(gs, i);
    CutIdsLess(HeadsOf(gs), i);
    assert g.rest[0].id in Ids(g.rest);
    if n in LinksOf(cells, q) { LinkParts(cells, q, n); }
  }

  /** Linked into the main list, the first follower is a head like any other. */
  lemma {:induction false} PromotedRings(m: Links, m': Links, cells: Cells, lh: ListNode, gs: seq<Group>, i: int,
        ids: set<nat>)
    requires Led(m, cells, lh, gs, i) && Known(cells, HeadsOf(gs)) && ids == Ids(HeadsOf(gs)) + {gs[i].rest[0].id}
    requires var c, n := LinksOf(cells, Cut(HeadsOf(gs), i)), cells[gs[i].rest[0].id].node;
      OnlyIn(m, m', [lh] + c + [n]) && Ring(m', lh, c[..i] + [n] + c[i..])
    ensures Rings(m', cells, lh, gs[i := Promoted(gs[i])]) && OnlyMain(m, m', lh, ids)
  {
    hide Ring, Carries, OnlyIn, OnlyMain;
    var g, q := Promoted(gs[i]), Cut(HeadsOf(gs), i);
    CutIdsLess(HeadsOf(gs), i);
    MainOnly(m, m', cells, lh, q, [cells[g.head.id].node], ids);
    OwnIds(gs[i]);
    HeadIds(gs, i);
    TailIds(gs[i].rest);
    BehindMain(m, m', cells, lh, ids, g);
    forall k | 0 <= k < |gs| && k != i ensures Carries(m', cells, gs[k]) {
      HeadIds(gs, k);
      OtherGroup(gs, i, k);
      MemberIds(gs[k]);
      MemberIds(gs[i]);
      BehindMain(m, m', cells, lh, ids, gs[k]);
    }
    FewerMembers(gs[i], 0);
    SeparateWith(gs, i, g);
    SameHeads(gs, i, g);
    CarriesHead(m', cells, g);
    LinksBack(cells, HeadsOf(gs), i, g.head);
  }

  /** The first follower is none of the others. */
  lemma {:induction false} OwnIds(g: Group)
    requires UniqueIds(Members(g)) && g.rest != []
    ensures g.rest[0].id !in Ids(g.rest[1..]) && g.rest[0].id in Ids(g.rest)
  {
    assert Members(g)[1] == g.rest[0];
    forall k | 0 <= k < |g.rest[1..]| ensures g.rest[1..][k].id != g.rest[0].id {
      assert Members(g)[k + 2] == g.rest[1..][k];
    }
  }

  lemma {:induction false} LinksBack(cells: Cells, q: seq<Action>, i: int, a: Action)
    requires Known(cells, q) && 0 <= i < |q| && a.id in cells && cells[a.id].prio == a.prio && Known(cells, Cut(q, i))
    ensures Known(cells, q[i := a])
    ensures var c := LinksOf(cells, Cut(q, i)); LinksOf(cells, q[i := a]) == c[..i] + [cells[a.id].node] + c[i..]
  {
  }

  /** The first follower of a head that has left the main list takes its place there. */
  method PromoteHead(ghost ns: set<ListNode>, cells: Cells, ghost lh: ListNode, ghost gs: seq<Group>, ghost i: int,
        at: Cell, prev: ListNode)
    requires Half(Snap(ns), cells, lh, gs, i) && gs[i].rest != [] && gs[i].head.id in cells
    requires at == cells[gs[i].head.id]
    requires prev == At(lh, LinksOf(cells, Cut(HeadsOf(gs), i)), i) && at.node in ns
    modifies ns
    ensures Rings(Snap(ns), cells, lh, gs[i := Promoted(gs[i])]) && Ring(Snap(ns), at.head, [])
    ensures at.node.next == old(at.node.next) && at.node.prev == old(at.node.prev)
    ensures Confined(old(Snap(ns)), Snap(ns), lh, AllIds(gs))
  {
    hide Confined, AllIds;
    hide Ring, LinksOf, OnlyIn, Carries, HeadsOf, Half, OnlyBehind, Known, UniqueIds, Members, Led, At, Rings, OnlyMain;
    ghost var m := Snap(ns);
    HalfGroup(m, cells, lh, gs, i);
    HalfStatic(m, cells, lh, gs, i);
    FreeNode(m, cells, gs, i, lh);
    ghost var c := LinksOf(cells, Cut(HeadsOf(gs), i));
    var a := Promote(ns, cells, gs[i], at);
    ghost var m1 := Snap(ns);
    IsLed(m, m1, cells, lh, gs, i);
    LedRing(m1, cells, lh, gs, i);
    LinkBehind(ns, lh, c, i, prev, a.node);
    PromotedRings(m1, Snap(ns), cells, lh, gs, i, Ids(HeadsOf(gs)) + {gs[i].rest[0].id});
    HeadFrame(m1, Snap(ns), lh, Ids(HeadsOf(gs)) + {gs[i].rest[0].id}, at.head);
    SwapConfined(m, m1, Snap(ns), lh, gs, i, Ids(HeadsOf(gs)) + {gs[i].rest[0].id});
    GoneNode(m, m1, Snap(ns), cells, lh, gs, i);
    assert m[at.node] == Snap(ns)[at.node];
  }

  /** The head that has left is not touched when its first follower goes in. */
  lemma {:induction false} GoneNode(a: Links, b: Links, c: Links, cells: Cells, lh: ListNode, gs: seq<Group>, i: int)
    requires Half(a, cells, lh, gs, i) && gs[i].rest != [] && gs[i].head.id in cells && cells[gs[i].head.id].node in a
    requires OnlyBehind(a, b, gs[i]) && gs[i].rest[0].id in cells
    requires OnlyIn(b, c, [lh] + LinksOf(cells, Cut(HeadsOf(gs), i)) + [cells[gs[i].rest[0].id].node])
    ensures var n := cells[gs[i].head.id].node; n in c && c[n] == a[n]
  {
    hide Ring, LinksOf, Carries;
    var n, q := cells[gs[i].head.id].node, Cut(HeadsOf(gs), i);
    OneGroup(gs, i);
    HeadNotBehind(gs[i]);
    OwnIds(gs[i]);
    OthersLeft(gs, i);
    if n in LinksOf(cells, q) { LinkParts(cells, q, n); }
    assert n !in [lh] + LinksOf(cells, q) + [cells[gs[i].rest[0].id].node];
  }

  lemma {:induction false} OthersLeft(gs: seq<Group>, i: int)
    requires Separate(gs) && 0 <= i < |gs|
    ensures gs[i].head.id !in Ids(Cut(HeadsOf(gs), i))
  {
    var q := Cut(HeadsOf(gs), i);
    forall k | 0 <= k < |q| ensures q[k].id != gs[i].head.id {
      var j := if k < i then k else k + 1;
      OtherGroup(gs, i, j);
      MemberIds(gs[i]);
      MemberIds(gs[j]);
    }
  }

  lemma {:induction false} HalfStatic(m: Links, cells: Cells, lh: ListNode, gs: seq<Group>, i: int)
    requires Half(m, cells, lh, gs, i)
    ensures CellsOk(cells) && Outside(lh) && 0 <= i < |gs| && |HeadsOf(gs)| == |gs|
    ensures Known(cells, HeadsOf(gs)) && Known(cells, Cut(HeadsOf(gs), i))
    ensures i <= |LinksOf(cells, Cut(HeadsOf(gs), i))| && gs[i].head.id in cells
    ensures cells[gs[i].head.id].head.kind == EntryHead
  {
    hide Ring;
    assert Carries(m, cells, gs[i]);
  }

  lemma {:induction false} LedRing(m: Links, cells: Cells, lh: ListNode, gs: seq<Group>, i: int)
    requires Led(m, cells, lh, gs, i)
    ensures Known(cells, Cut(HeadsOf(gs), i)) && Ring(m, lh, LinksOf(cells, Cut(HeadsOf(gs), i)))
  {
  }

  /** An empty list is not touched by changes to links. */
  lemma {:induction false} HeadFrame(m: Links, m': Links, lh: ListNode, ids: set<nat>, h: ListNode)
    requires Ring(m, h, []) && OnlyMain(m, m', lh, ids) && Outside(lh) && h.kind == EntryHead
    ensures Ring(m', h, [])
  {
    hide Ring;
    assert [h] + [] == [h];
    RingIn(m, h, [], h);
    RingFrame(m, m', h, []);
  }
}
