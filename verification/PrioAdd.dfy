/**
 Adding on links: a head with the entries behind it goes into a two-level
 priority list (include/ds/skiplist.h, kernel/generic/def_actions.c).
 */
module PrioAdds {
  import opened ListRings
  import opened PrioLists
  import opened PrioOps
  import opened PrioRings
  import opened PrioLinks

  lemma {:induction false} SeparateMore(gs: seq<Group>, g: Group, i: int)
    requires Separate(gs + [g]) && 0 <= i < |gs|
    ensures Ids(Members(gs[i])) !! Ids(Members(g)) && UniqueIds(Members(g)) && UniqueIds(Members(gs[i]))
  {
    var r := gs + [g];
    assert r[i] == gs[i] && r[|gs|] == g;
  }

  lemma {:induction false} SeparateBetween(gs: seq<Group>, g: Group, k: int)
    requires Separate(gs + [g]) && 0 <= k <= |gs|
    ensures Separate(gs[..k] + [g] + gs[k..]) && Separate(gs) && UniqueIds(Members(g))
  {
    var q, r := gs + [g], gs[..k] + [g] + gs[k..];
    assert q[|gs|] == g && forall i :: 0 <= i < |gs| ==> q[i] == gs[i];
    assert forall i :: 0 <= i < |r| ==> r[i] == q[if i < k then i else if i == k then |gs| else i - 1];
    forall a, b | 0 <= a < b < |r| ensures Ids(Members(r[a])) !! Ids(Members(r[b])) {
      var x, y := if a < k then a else if a == k then |gs| else a - 1, if b < k then b else if b == k then |gs|
        else b - 1;
      if x < y {
        assert Ids(Members(q[x])) !! Ids(Members(q[y]));
      } else {
        assert Ids(Members(q[y])) !! Ids(Members(q[x]));
      }
    }
  }

  lemma {:induction false} HeadsBetween(cells: Cells, gs: seq<Group>, g: Group, k: int)
    requires Known(cells, HeadsOf(gs)) && g.head.id in cells && cells[g.head.id].prio == g.head.prio && 0 <= k <= |gs|
    ensures var r, c := gs[..k] + [g] + gs[k..], LinksOf(cells, HeadsOf(gs));
      Known(cells, HeadsOf(r)) && LinksOf(cells, HeadsOf(r)) == c[..k] + [cells[g.head.id].node] + c[k..]
  {
    hide LinksOf, HeadsOf;
    var r, q := gs[..k] + [g] + gs[k..], HeadsOf(gs);
    assert HeadsOf(r) == q[..k] + [g.head] + q[k..];
    LinksBetween(cells, q, g.head, k);
  }

  lemma {:induction false} LinksBetween(cells: Cells, q: seq<Action>, a: Action, k: int)
    requires Known(cells, q) && a.id in cells && cells[a.id].prio == a.prio && 0 <= k <= |q|
    ensures Known(cells, q[..k] + [a] + q[k..])
    ensures var c := LinksOf(cells, q);
      LinksOf(cells, q[..k] + [a] + q[k..]) == c[..k] + [cells[a.id].node] + c[k..]
  {
    hide LinksOf;
  }

  /** A new head in the main list, with what is behind it. */
  lemma {:induction false} NewHeadRings(m: Links, m': Links, cells: Cells, lh: ListNode, gs: seq<Group>, g: Group,
        k: int)
    requires Rings(m, cells, lh, gs) && Carries(m, cells, g) && Separate(gs + [g]) && 0 <= k <= |gs|
    requires var c, n := LinksOf(cells, HeadsOf(gs)), cells[g.head.id].node;
      OnlyIn(m, m', [lh] + c + [n]) && Ring(m', lh, c[..k] + [n] + c[k..])
    ensures Rings(m', cells, lh, gs[..k] + [g] + gs[k..]) && Confined(m, m', lh, AllIds(gs) + Ids(Members(g)))
  {
    hide Ring, LinksOf, Carries, OnlyIn, HeadsOf, Separate, UniqueIds;
    var ids, r := Ids(HeadsOf(gs)) + {g.head.id}, gs[..k] + [g] + gs[k..];
    CarriesHead(m, cells, g);
    SeparateBetween(gs, g, k);
    MainOnly(m, m', cells, lh, HeadsOf(gs), [cells[g.head.id].node], ids);
    HeadsBetween(cells, gs, g, k);
    HeadNotBehind(g);
    forall j | 0 <= j < |gs| ensures Carries(m', cells, gs[j]) && Ids(HeadsOf(gs)) !! Ids(g.rest) {
      NewHeadApart(gs, g, j);
      BehindMain(m, m', cells, lh, ids, gs[j]);
    }
    NewHeadOwn(gs, g);
    BehindMain(m, m', cells, lh, ids, g);
    forall j | 0 <= j < |r| ensures Carries(m', cells, r[j]) {
      assert r[j] == if j < k then gs[j] else if j == k then g else gs[j - 1];
    }
    MainConfined(m, m', lh, gs, g, ids);
  }

  lemma {:induction false} NewHeadApart(gs: seq<Group>, g: Group, j: int)
    requires Separate(gs + [g]) && Separate(gs) && 0 <= j < |gs|
    ensures Ids(HeadsOf(gs)) + {g.head.id} !! Ids(gs[j].rest) && Ids(HeadsOf(gs)) !! Ids(g.rest)
  {
    HeadIds(gs, j);
    SeparateMore(gs, g, j);
    MemberIds(gs[j]);
    MemberIds(g);
    NewHeadOwn(gs, g);
  }

  lemma {:induction false} NewHeadOwn(gs: seq<Group>, g: Group)
    requires Separate(gs + [g])
    ensures Ids(HeadsOf(gs)) !! Ids(g.rest) && Ids(HeadsOf(gs)) !! Ids(Members(g))
  {
    hide Separate;
    MemberIds(g);
    forall id | id in Ids(HeadsOf(gs)) ensures id !in Ids(Members(g)) {
      var i :| 0 <= i < |gs| && gs[i].head.id == id;
      SeparateMore(gs, g, i);
      MemberIds(gs[i]);
    }
  }

  lemma {:induction false} MainConfined(m: Links, m': Links, lh: ListNode, gs: seq<Group>, g: Group, ids: set<nat>)
    requires OnlyMain(m, m', lh, ids) && ids == Ids(HeadsOf(gs)) + {g.head.id}
    ensures Confined(m, m', lh, AllIds(gs) + Ids(Members(g)))
  {
    HeadsAll(gs);
    MemberIds(g);
  }

  /** The group that head number `k` leads once `g` has joined it. */
  ghost function Grown(k: Group, g: Group): (r: Group)
    ensures r.head == k.head && Members(r) == Members(k) + Members(g)
  {
    Group(k.head, k.rest + Members(g))
  }

  lemma {:induction false} SeparateGrown(gs: seq<Group>, g: Group, i: int)
    requires Separate(gs + [g]) && 0 <= i < |gs|
    ensures Separate(gs[i := Grown(gs[i], g)])
    ensures Ids(Members(Grown(gs[i], g))) == Ids(Members(gs[i])) + Ids(Members(g))
  {
    hide Members;
    var r, k := gs[i := Grown(gs[i], g)], Grown(gs[i], g);
    IdsAppend(Members(gs[i]), Members(g));
    SeparateMore(gs, g, i);
    UniqueJoined(Members(gs[i]), Members(g));
    SeparateBetween(gs, g, 0);
    forall a | 0 <= a < |gs| && a != i ensures Ids(Members(gs[a])) !! Ids(Members(k)) && UniqueIds(Members(gs[a])) {
      SeparateMore(gs, g, a);
      OtherGroup(gs, i, a);
    }
    forall a, b | 0 <= a < b < |r| ensures Ids(Members(r[a])) !! Ids(Members(r[b])) {
      if a != i && b != i { OtherGroup(gs, a, b); }
    }
  }

  lemma {:induction false} UniqueJoined(p: seq<Action>, q: seq<Action>)
    requires UniqueIds(p) && UniqueIds(q) && Ids(p) !! Ids(q)
    ensures UniqueIds(p + q)
  {
    var r := p + q;
    forall i, j | 0 <= i < j < |r| ensures r[i].id != r[j].id {
      if i < |p| && j >= |p| {
        assert r[i].id in Ids(p) && q[j - |p|].id in Ids(q) && r[j] == q[j - |p|];
      } else if i >= |p| {
        assert r[i] == q[i - |p|] && r[j] == q[j - |p|];
      }
    }
  }

  /** Nothing has changed but the lists that some entries head and the links of some entries. */
  ghost predicate OnlyParts(m: Links, m': Links, heads: set<nat>, links: set<nat>) {
    && m'.Keys == m.Keys
    && forall n :: n in m && !(n.kind == EntryHead && n.owner in heads) ==>
         !(n.kind == EntryLink && n.owner in links) ==> m'[n] == m[n]
  }

  lemma {:induction false} PartsOnly(m: Links, m': Links, r: seq<ListNode>, heads: set<nat>, links: set<nat>)
    requires OnlyIn(m, m', r)
    requires forall n :: n in r ==>
      (n.kind == EntryHead && n.owner in heads) || (n.kind == EntryLink && n.owner in links)
    ensures OnlyParts(m, m', heads, links)
  {
  }

  /** A list of entries is not touched by changes to other entries. */
  lemma {:induction false} ListApart(
    m: Links, m': Links, cells: Cells, id: nat, q: seq<Action>, heads: set<nat>, links: set<nat>)
    requires CellsOk(cells) && id in cells && Known(cells, q) && Ring(m, cells[id].head, LinksOf(cells, q))
    requires OnlyParts(m, m', heads, links) && id !in heads && Ids(q) !! links
    ensures Ring(m', cells[id].head, LinksOf(cells, q))
  {
    hide Ring;
    var h, c := cells[id].head, LinksOf(cells, q);
    forall n | n in [h] + c ensures n in m && m'[n] == m[n] {
      RingIn(m, h, c, n);
      if n in c { LinkParts(cells, q, n); }
    }
    RingFrame(m, m', h, c);
  }

  ghost predicate Empty(m: Links, cells: Cells, q: seq<Action>) {
    Known(cells, q) && forall j :: 0 <= j < |q| ==> Ring(m, cells[q[j].id].head, [])
  }

  lemma {:induction false} EmptyApart(m: Links, m': Links, cells: Cells, q: seq<Action>, heads: set<nat>,
        links: set<nat>)
    requires CellsOk(cells) && Empty(m, cells, q) && OnlyParts(m, m', heads, links) && Ids(q) !! heads
    ensures Empty(m', cells, q)
  {
    hide Ring;
    forall j | 0 <= j < |q| ensures Ring(m', cells[q[j].id].head, []) {
      assert q[j].id in Ids(q) && LinksOf(cells, []) == [] && Ids([]) == {};
      ListApart(m, m', cells, q[j].id, [], heads, links);
    }
  }

  /** `g` is joining the list of `k`: its head is the last entry of that list, its followers still stand apart. */
  ghost predicate Joining(m: Links, cells: Cells, k: Group, g: Group) {
    && k.head.id in cells && g.head.id in cells && Known(cells, k.rest + [g.head]) && Known(cells, g.rest)
    && Ring(m, cells[k.head.id].head, LinksOf(cells, k.rest + [g.head]))
    && Ring(m, cells[g.head.id].head, LinksOf(cells, g.rest)) && Empty(m, cells, k.rest) && Empty(m, cells, g.rest)
  }

  /** The entries of two groups are all different. */
  ghost predicate AllApart(k: Group, g: Group) {
    && k.head.id != g.head.id && k.head.id !in Ids(k.rest) && k.head.id !in Ids(g.rest)
    && g.head.id !in Ids(k.rest) && g.head.id !in Ids(g.rest) && Ids(k.rest) !! Ids(g.rest)
  }

  lemma {:induction false} IsApart(k: Group, g: Group)
    requires UniqueIds(Members(k)) && UniqueIds(Members(g)) && Ids(Members(k)) !! Ids(Members(g))
    ensures AllApart(k, g)
  {
    hide UniqueIds, Members;
    MemberIds(k);
    MemberIds(g);
    HeadNotBehind(k);
    HeadNotBehind(g);
  }

  lemma {:induction false} LinksAppend(cells: Cells, p: seq<Action>, q: seq<Action>)
    requires Known(cells, p) && Known(cells, q)
    ensures Known(cells, p + q) && LinksOf(cells, p + q) == LinksOf(cells, p) + LinksOf(cells, q)
  {
    hide LinksOf;
  }

  lemma {:induction false} Joins(m: Links, m': Links, cells: Cells, k: Group, g: Group)
    requires CellsOk(cells) && Carries(m, cells, k) && Carries(m, cells, g) && AllApart(k, g)
    requires var h, c, n := cells[k.head.id].head, LinksOf(cells, k.rest), cells[g.head.id].node;
      OnlyIn(m, m', [h] + c + [n]) && Ring(m', h, c + [n])
    ensures Joining(m', cells, k, g) && OnlyParts(m, m', {k.head.id}, Ids(k.rest) + {g.head.id})
  {
    hide Ring, LinksOf, OnlyIn, OnlyParts;
    var c, n := LinksOf(cells, k.rest), cells[g.head.id].node;
    forall x | x in c ensures x.kind == EntryLink && x.owner in Ids(k.rest) { LinkParts(cells, k.rest, x); }
    PartsOnly(m, m', [cells[k.head.id].head] + c + [n], {k.head.id}, Ids(k.rest) + {g.head.id});
    LinksAppend(cells, k.rest, [g.head]);
    assert LinksOf(cells, [g.head]) == [n];
    ListApart(m, m', cells, g.head.id, g.rest, {k.head.id}, Ids(k.rest) + {g.head.id});
    EmptyApart(m, m', cells, k.rest, {k.head.id}, Ids(k.rest) + {g.head.id});
    EmptyApart(m, m', cells, g.rest, {k.head.id}, Ids(k.rest) + {g.head.id});
  }

  lemma {:induction false} EmptyAll(m: Links, cells: Cells, k: Group, g: Group)
    requires g.head.id in cells && g.head.prio == cells[g.head.id].prio
    requires Ring(m, cells[g.head.id].head, []) && Empty(m, cells, k.rest) && Empty(m, cells, g.rest)
    ensures Empty(m, cells, k.rest + Members(g))
  {
    hide Ring;
    var r := k.rest + Members(g);
    forall j | 0 <= j < |r|
      ensures r[j].id in cells && cells[r[j].id].prio == r[j].prio && Ring(m, cells[r[j].id].head, [])
    {
      if j > |k.rest| { assert r[j] == g.rest[j - |k.rest| - 1]; }
    }
  }

  /** The followers have moved, too. */
  lemma {:induction false} JoinDone(m: Links, m': Links, cells: Cells, k: Group, g: Group)
    requires CellsOk(cells) && Joining(m, cells, k, g) && AllApart(k, g)
    requires cells[k.head.id].prio == k.head.prio && cells[g.head.id].prio == g.head.prio
    requires var h, c, d, s := cells[k.head.id].head, LinksOf(cells, k.rest + [g.head]), LinksOf(cells, g.rest),
      cells[g.head.id].head;
      OnlyIn(m, m', [h] + c + [s] + d) && Ring(m', h, c + d) && Ring(m', s, [])
    ensures Carries(m', cells, Grown(k, g))
    ensures OnlyParts(m, m', {k.head.id, g.head.id}, Ids(k.rest) + {g.head.id} + Ids(g.rest))
  {
    hide Ring, LinksOf, OnlyIn, OnlyParts;
    var c, d := LinksOf(cells, k.rest + [g.head]), LinksOf(cells, g.rest);
    var heads, links := {k.head.id, g.head.id}, Ids(k.rest) + {g.head.id} + Ids(g.rest);
    IdsAppend(k.rest, [g.head]);
    assert Ids([g.head]) == {g.head.id} by { assert [g.head][0].id in Ids([g.head]); }
    forall x | x in c ensures x.kind == EntryLink && x.owner in links { LinkParts(cells, k.rest + [g.head], x); }
    forall x | x in d ensures x.kind == EntryLink && x.owner in links { LinkParts(cells, g.rest, x); }
    PartsOnly(m, m', [cells[k.head.id].head] + c + [cells[g.head.id].head] + d, heads, links);
    EmptyApart(m, m', cells, k.rest, heads, links);
    EmptyApart(m, m', cells, g.rest, heads, links);
    GrownLinks(m', cells, k, g);
  }

  lemma {:induction false} GrownLinks(m: Links, cells: Cells, k: Group, g: Group)
    requires k.head.id in cells && g.head.id in cells && Known(cells, k.rest + [g.head]) && Known(cells, g.rest)
    requires cells[k.head.id].prio == k.head.prio && cells[g.head.id].prio == g.head.prio
    requires Ring(m, cells[k.head.id].head, LinksOf(cells, k.rest + [g.head]) + LinksOf(cells, g.rest))
    requires Ring(m, cells[g.head.id].head, []) && Empty(m, cells, k.rest) && Empty(m, cells, g.rest)
    ensures Carries(m, cells, Grown(k, g))
  {
    hide Ring, LinksOf;
    LinksAppend(cells, k.rest + [g.head], g.rest);
    assert k.rest + [g.head] + g.rest == k.rest + Members(g);
    EmptyAll(m, cells, k, g);
  }

  lemma {:induction false} PartsBehind(a: Links, b: Links, c: Links, k: Group, g: Group)
    requires OnlyParts(a, b, {k.head.id}, Ids(k.rest) + {g.head.id})
    requires b == c || OnlyParts(b, c, {k.head.id, g.head.id}, Ids(k.rest) + {g.head.id} + Ids(g.rest))
    ensures OnlyBehind(a, c, Grown(k, g))
  {
    IdsAppend(k.rest, Members(g));
    MemberIds(g);
    assert Grown(k, g).rest == k.rest + Members(g);
  }

  /** The two lists of a join have no node in common. */
  lemma {:induction false} JoinApart(cells: Cells, k: Group, g: Group)
    requires CellsOk(cells) && k.head.id in cells && g.head.id in cells && AllApart(k, g)
    requires Known(cells, k.rest + [g.head]) && Known(cells, g.rest) && Known(cells, k.rest)
    ensures Apart([cells[k.head.id].head] + LinksOf(cells, k.rest + [g.head]),
      [cells[g.head.id].head] + LinksOf(cells, g.rest))
    ensures cells[g.head.id].node !in [cells[k.head.id].head] + LinksOf(cells, k.rest)
  {
    hide LinksOf;
    var c, d := LinksOf(cells, k.rest + [g.head]), LinksOf(cells, g.rest);
    IdsAppend(k.rest, [g.head]);
    assert Ids([g.head]) == {g.head.id} by { assert [g.head][0].id in Ids([g.head]); }
    forall i | 0 <= i < |c| ensures c[i].kind == EntryLink && c[i].owner !in Ids(g.rest) {
      LinkParts(cells, k.rest + [g.head], c[i]);
    }
    forall j | 0 <= j < |d| ensures d[j].kind == EntryLink && d[j].owner in Ids(g.rest) {
      LinkParts(cells, g.rest, d[j]);
    }
    forall x | x in LinksOf(cells, k.rest) ensures x.owner in Ids(k.rest) { LinkParts(cells, k.rest, x); }
  }

  /** The head of `g` joins the list of `da` at its end, and its own followers come after it. */
  method JoinHead(ghost ns: set<ListNode>, cells: Cells, ghost k: Group, ghost g: Group, da: Cell, a: Cell)
    requires CellsOk(cells) && Carries(Snap(ns), cells, k) && Carries(Snap(ns), cells, g) && AllApart(k, g)
    requires da == cells[k.head.id] && a == cells[g.head.id] && a.node in ns
    modifies ns
    ensures Carries(Snap(ns), cells, Grown(k, g)) && OnlyBehind(old(Snap(ns)), Snap(ns), Grown(k, g))
  {
    hide Ring, LinksOf, OnlyIn, OnlyBehind, OnlyParts, AllApart, Apart, Empty, Known;
    ghost var m, c, d := Snap(ns), LinksOf(cells, k.rest), LinksOf(cells, g.rest);
    Heads(m, cells, k);
    Heads(m, cells, g);
    KnownWith(cells, k.rest, g.head);
    JoinApart(cells, k, g);
    AddBefore(ns, da.head, c, |c|, da.head, a.node);
    assert c[..|c|] + [a.node] + c[|c|..] == c + [a.node];
    ghost var m1 := Snap(ns);
    Joins(m, m1, cells, k, g);
    RingFirst(m1, a.head, d);
    ghost var c1 := LinksOf(cells, k.rest + [g.head]);
    if a.head.next != a.head {
      RingFirst(m1, da.head, c1);
      Move(ns, da.head, c1, |c1|, da.head.prev, da.head, a.head, d);
      assert c1[..|c1|] + d + c1[|c1|..] == c1 + d;
      JoinDone(m1, Snap(ns), cells, k, g);
    } else {
      assert c1 + d == c1;
      GrownLinks(m1, cells, k, g);
    }
    PartsBehind(m, m1, Snap(ns), k, g);
  }

  lemma {:induction false} KnownWith(cells: Cells, q: seq<Action>, a: Action)
    requires Known(cells, q) && a.id in cells && cells[a.id].prio == a.prio
    ensures Known(cells, q + [a])
  {
  }

  lemma {:induction false} Heads(m: Links, cells: Cells, g: Group)
    requires Carries(m, cells, g)
    ensures g.head.id in cells && cells[g.head.id].prio == g.head.prio && Known(cells, g.rest)
    ensures Ring(m, cells[g.head.id].head, LinksOf(cells, g.rest)) && Empty(m, cells, g.rest)
  {
  }

  lemma {:induction false} SeparateNew(gs: seq<Group>, g: Group)
    requires Separate(gs) && UniqueIds(Members(g)) && AllIds(gs) !! Ids(Members(g))
    ensures Separate(gs + [g])
  {
    hide UniqueIds, Members, Ids;
    var r := gs + [g];
    forall i, k | 0 <= i < k < |r| ensures Ids(Members(r[i])) !! Ids(Members(r[k])) {
      assert r[i] == gs[i];
      if k < |gs| { OtherGroup(gs, i, k); }
    }
  }

  /** `g` has joined head number `i`. */
  lemma {:induction false} GrownRings(m: Links, m': Links, cells: Cells, lh: ListNode, gs: seq<Group>, g: Group, i: int)
    requires Rings(m, cells, lh, gs) && Separate(gs + [g]) && 0 <= i < |gs|
    requires Carries(m', cells, Grown(gs[i], g)) && OnlyBehind(m, m', Grown(gs[i], g))
    ensures Rings(m', cells, lh, gs[i := Grown(gs[i], g)]) && Confined(m, m', lh, AllIds(gs) + Ids(Members(g)))
  {
    hide Ring, LinksOf, Carries, Separate, OnlyBehind, Members, HeadsOf, UniqueIds, Ids;
    var k := Grown(gs[i], g);
    SeparateGrown(gs, g, i);
    HeadIds(gs, i);
    NewHeadOwn(gs, g);
    IdsAppend(gs[i].rest, Members(g));
    MainFrame(m, m', cells, lh, HeadsOf(gs), k);
    forall j | 0 <= j < |gs| && j != i ensures Carries(m', cells, gs[j]) {
      OtherGroup(gs, i, j);
      SeparateMore(gs, g, j);
      BehindOther(m, m', cells, k, gs[j]);
    }
    SameHeadRings(m', cells, lh, gs, i, k);
    BehindConfined(m, m', lh, k, AllIds(gs) + Ids(Members(g)));
  }

  /** The node of a new head is in no list yet. */
  lemma {:induction false} NewNode(cells: Cells, lh: ListNode, gs: seq<Group>, g: Group)
    requires CellsOk(cells) && Outside(lh) && Known(cells, HeadsOf(gs)) && g.head.id in cells && Separate(gs + [g])
    ensures cells[g.head.id].node !in [lh] + LinksOf(cells, HeadsOf(gs))
  {
    hide LinksOf, Separate, HeadsOf;
    NewHeadOwn(gs, g);
    MemberIds(g);
    var n := cells[g.head.id].node;
    if n in LinksOf(cells, HeadsOf(gs)) { LinkParts(cells, HeadsOf(gs), n); }
  }

  lemma {:induction false} RingsStatic(m: Links, cells: Cells, lh: ListNode, gs: seq<Group>)
    requires Rings(m, cells, lh, gs)
    ensures CellsOk(cells) && Outside(lh) && Separate(gs) && Known(cells, HeadsOf(gs))
    ensures Ring(m, lh, LinksOf(cells, HeadsOf(gs)))
  {
  }

  /** Head number `k` as the scan meets it. */
  lemma {:induction false} ScanAt(m: Links, cells: Cells, lh: ListNode, gs: seq<Group>, k: int)
    requires Rings(m, cells, lh, gs) && Known(cells, HeadsOf(gs)) && 0 <= k < |gs|
    ensures var n := At(lh, LinksOf(cells, HeadsOf(gs)), k + 1);
      && n.owner == gs[k].head.id && n != lh && n in m && m[n].next == At(lh, LinksOf(cells, HeadsOf(gs)), k + 2)
    ensures gs[k].head.id in cells && cells[gs[k].head.id].prio == gs[k].head.prio && Carries(m, cells, gs[k])
  {
    hide Ring, LinksOf, HeadsOf;
    Bounds(m, lh, LinksOf(cells, HeadsOf(gs)), k, k);
    assert HeadsOf(gs)[k] == gs[k].head;
  }

  /** Links a head with its followers into the list: the scan of the source on links. */
  method AddLinks(ghost ns: set<ListNode>, cells: Cells, lh: ListNode, ghost gs: seq<Group>, ghost g: Group, id: nat)
    requires Rings(Snap(ns), cells, lh, gs) && Carries(Snap(ns), cells, g) && UniqueIds(Members(g))
    requires AllIds(gs) !! Ids(Members(g)) && g.head.id == id && id in cells && cells[id].node in ns
    modifies ns
    ensures Rings(Snap(ns), cells, lh, Added(gs, g))
    ensures Confined(old(Snap(ns)), Snap(ns), lh, AllIds(gs) + Ids(Members(g)))
  {
    hide Ring, LinksOf, HeadsOf, Rings, Carries, Separate, OnlyIn, OnlyBehind, Members, UniqueIds, Ids, Known, At;
    hide Confined, Added, AllIds, AllApart;
    var a := cells[id];
    ghost var m := Snap(ns);
    RingsStatic(m, cells, lh, gs);
    SeparateNew(gs, g);
    NewNode(cells, lh, gs, g);
    CarriesHead(m, cells, g);
    ghost var c := LinksOf(cells, HeadsOf(gs));
    ScanStart(m, lh, c);
    var ln := lh.next;
    ghost var k := 0;
    while ln != lh
      invariant 0 <= k <= |gs| && ln == At(lh, c, k + 1) && Snap(ns) == m && (ln == lh <==> k == |gs|)
      invariant forall j :: 0 <= j < k ==> gs[j].head.prio < g.head.prio
      decreases |gs| - k
    {
      ScanAt(m, cells, lh, gs, k);
      var da := cells[ln.owner];
      if da.prio > a.prio {
        AddBefore(ns, lh, c, k, ln, a.node);
        NewHeadRings(m, Snap(ns), cells, lh, gs, g, k);
        AddedAt(gs, g, k);
        return;
      } else if da.prio == a.prio {
        SeparateMore(gs, g, k);
        IsApart(gs[k], g);
        JoinHead(ns, cells, gs[k], g, da, a);
        GrownRings(m, Snap(ns), cells, lh, gs, g, k);
        AddedAt(gs, g, k);
        return;
      }
      ScanNext(lh, cells, gs, m, k);
      ln := ln.next;
      k := k + 1;
    }
    AddBefore(ns, lh, c, |gs|, lh, a.node);
    NewHeadRings(m, Snap(ns), cells, lh, gs, g, |gs|);
    AddedAt(gs, g, |gs|);
  }

  lemma {:induction false} ScanStart(m: Links, lh: ListNode, c: seq<ListNode>)
    requires Ring(m, lh, c)
    ensures lh in m && m[lh].next == At(lh, c, 1) && (At(lh, c, 1) == lh <==> c == [])
  {
    RingFirst(m, lh, c);
  }

  lemma {:induction false} ScanNext(lh: ListNode, cells: Cells, gs: seq<Group>, m: Links, k: int)
    requires Rings(m, cells, lh, gs) && Known(cells, HeadsOf(gs)) && 0 <= k < |gs|
    ensures At(lh, LinksOf(cells, HeadsOf(gs)), k + 2) == lh <==> k + 1 == |gs|
  {
    hide LinksOf, HeadsOf;
    var c := LinksOf(cells, HeadsOf(gs));
    if k + 1 < |gs| { assert ([lh] + c)[0] != ([lh] + c)[k + 2]; }
  }
}
