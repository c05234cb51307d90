/**
 Every timer owns a tick record with the head of an action list.  The timers of
 one tick share the list of one of them, whose record is linked into a row of
 ticks; the others' records are not linked (kernel/generic/timer.c).
 */
module TimerRows {
  import opened PrioLists
  import opened PrioOps
  import opened TimerLists
  import opened TimerSpecs

  /** The tick record of a timer: its time, the list it heads, and whether it is linked into a row. */
  datatype Own = Own(time: nat, actions: seq<Group>, bound: bool)

  type Owns = map<nat, Own>

  /** A major tick with its rows of timers that stand for their ticks. */
  datatype MajorTick = MajorTick(id: nat, time: nat, rows: seq<seq<nat>>)

  ghost function TickOf(own: Owns, id: nat): Tick {
    if id in own then Tick(id, own[id].time, own[id].actions) else Tick(id, 0, [])
  }

  /** What a row shows: the ticks in order, each with the list its timer heads. */
  ghost function RowView(own: Owns, row: seq<nat>): (ts: seq<Tick>)
    ensures |ts| == |row| && forall i :: 0 <= i < |row| ==> ts[i] == TickOf(own, row[i])
  {
    if row == [] then [] else [TickOf(own, row[0])] + RowView(own, row[1..])
  }

  ghost predicate AllOwned(own: Owns, row: seq<nat>) { forall i :: 0 <= i < |row| ==> row[i] in own }

  lemma {:induction false} RowFrame(own: Owns, own': Owns, row: seq<nat>)
    requires forall i :: 0 <= i < |row| ==> row[i] in own && row[i] in own' && own'[row[i]] == own[row[i]]
    ensures RowView(own', row) == RowView(own, row)
  {
  }

  /** No timer stands twice in a row. */
  lemma {:induction false} RowOnce(own: Owns, row: seq<nat>, i: int, j: int)
    requires GroupOk(RowView(own, row)) && 0 <= i < j < |row|
    ensures row[i] != row[j]
  {
    var ts := RowView(own, row);
    assert ts[i].time < ts[j].time;
  }

  /** The timers of `row'` are bound now; all others are as before, but those that have left `row`. */
  ghost predicate Rewired(own: Owns, own': Owns, row: seq<nat>, row': seq<nat>) {
    && (forall x :: x in row' ==> x in own' && own'[x].bound && (x in row || x !in own || !own[x].bound))
    && (forall x :: x in own' && own'[x].bound && x !in row' ==> x in own && own[x].bound && x !in row)
    && (forall x :: x in own && own[x].bound && x !in row ==> x in own' && own'[x] == own[x])
  }

  /** The other timers keep their time, and one that is not bound heads no list. */
  ghost predicate Undisturbed(own: Owns, own': Owns, id: nat) {
    && own.Keys <= own'.Keys
    && forall x :: x in own && x != id ==>
      own'[x].time == own[x].time && (own'[x].bound || own'[x].actions == [] || own'[x] == own[x])
  }

  /** Searches a row for the tick at `t`. */
  method FindTick(own: Owns, row: seq<nat>, t: nat) returns (k: nat)
    requires AllOwned(own, row)
    ensures k <= |row| && (k < |row| ==> own[row[k]].time == t)
    ensures k == |row| ==> forall j :: 0 <= j < |row| ==> own[row[j]].time != t
  {
    k := 0;
    while k < |row|
      invariant k <= |row| && forall j :: 0 <= j < k ==> own[row[j]].time != t
    {
      if own[row[k]].time == t { return; }
      k := k + 1;
    }
  }

  /**
   The scan of a row for the tick of timer `a.id`: its action joins the list there, or it stands for the tick
   itself.
   */
  method JoinTick(own: Owns, row: seq<nat>, a: Action) returns (own': Owns, row': seq<nat>)
    requires AllOwned(own, row) && GroupOk(RowView(own, row)) && (forall x :: x in row ==> own[x].bound)
    requires a.id in own && own[a.id].actions == [] && !own[a.id].bound
    ensures var t := own[a.id].time;
      GroupNow(RowView(own, row), RowView(own', row'), t, Put(InGroup(RowView(own, row), t), a))
    ensures Rewired(own, own', row, row') && Undisturbed(own, own', a.id) && own'.Keys == own.Keys
    ensures own'[a.id].time == own[a.id].time && (own'[a.id].bound || own'[a.id].actions == [])
  {
    hide GroupNow, InGroup, Proper, GroupOk, Put, Rewired, Undisturbed, Flat, IsHead, RowView;
    var t := own[a.id].time;
    var i := 0;
    while i < |row|
      invariant 0 <= i <= |row| && forall j :: 0 <= j < i ==> own[row[j]].time < t
    {
      if own[row[i]].time == t {
        own' := JoinList(own, row, i, a);
        row' := row;
        return;
      } else if own[row[i]].time > t {
        own', row' := own[a.id := Own(t, own[a.id].actions + [Group(a, [])], true)], row[..i] + [a.id] + row[i..];
        NewView(own, row, i, own', a);
        return;
      }
      i := i + 1;
    }
    own', row' := own[a.id := Own(t, own[a.id].actions + [Group(a, [])], true)], row + [a.id];
    assert row[..i] + [a.id] + row[i..] == row + [a.id];
    NewView(own, row, i, own', a);
  }

  /** The action joins the list of the timer at position `i`. */
  method JoinList(own: Owns, row: seq<nat>, i: nat, a: Action) returns (own': Owns)
    requires AllOwned(own, row) && GroupOk(RowView(own, row)) && (forall x :: x in row ==> own[x].bound) && i < |row|
    requires a.id in own && !own[a.id].bound
    ensures var t := own[row[i]].time;
      GroupNow(RowView(own, row), RowView(own', row), t, Put(InGroup(RowView(own, row), t), a))
    ensures Rewired(own, own', row, row) && Undisturbed(own, own', a.id) && own'.Keys == own.Keys
    ensures own'[a.id] == own[a.id]
  {
    hide GroupNow, InGroup, Proper, GroupOk, Put, Rewired, Undisturbed, Flat, IsHead;
    var x := row[i];
    assert x in row;
    GroupTick(RowView(own, row), i);
    var gs := Add(own[x].actions, a);
    own' := own[x := Own(own[x].time, gs, true)];
    JoinedView(own, row, i, gs, own', a);
  }

  lemma {:induction false} GroupTick(ts: seq<Tick>, k: int)
    requires GroupOk(ts) && 0 <= k < |ts|
    ensures Proper(ts[k].actions) && IsHead(ts[k].actions, ts[k].rep) && InGroup(ts, ts[k].time) == Flat(ts[k].actions)
  {
    InGroupAt(ts, k);
    assert TickOk(ts[k]);
  }

  /** The list of the timer at position `i` has changed. */
  lemma {:induction false} RowChanged(own: Owns, row: seq<nat>, i: int, o: Own)
    requires AllOwned(own, row) && GroupOk(RowView(own, row)) && 0 <= i < |row|
    ensures RowView(own[row[i] := o], row) == RowView(own, row)[i := Tick(row[i], o.time, o.actions)]
  {
    var own' := own[row[i] := o];
    forall j | 0 <= j < |row| && j != i ensures row[j] != row[i] {
      if j < i { RowOnce(own, row, j, i); } else { RowOnce(own, row, i, j); }
    }
  }

  lemma {:induction false} JoinedView(own: Owns, row: seq<nat>, i: int, gs: seq<Group>, own': Owns, a: Action)
    requires AllOwned(own, row) && GroupOk(RowView(own, row)) && (forall x :: x in row ==> own[x].bound)
    requires 0 <= i < |row|
    requires own' == own[row[i] := Own(own[row[i]].time, gs, true)] && a.id in own && !own[a.id].bound
    requires Proper(gs) && IsHead(gs, row[i]) && Flat(gs) == Put(Flat(own[row[i]].actions), a)
    ensures var t := own[row[i]].time;
      GroupNow(RowView(own, row), RowView(own', row), t, Put(InGroup(RowView(own, row), t), a))
    ensures Rewired(own, own', row, row) && Undisturbed(own, own', a.id)
  {
    hide GroupNow, InGroup, GroupOk, Flat, Put, Proper;
    var ts, t := RowView(own, row), own[row[i]].time;
    assert row[i] in row;
    RowChanged(own, row, i, own'[row[i]]);
    TickChanged(ts, i, Tick(row[i], t, gs));
  }

  lemma {:induction false} NewView(own: Owns, row: seq<nat>, i: int, own': Owns, a: Action)
    requires AllOwned(own, row) && GroupOk(RowView(own, row)) && (forall x :: x in row ==> own[x].bound)
    requires 0 <= i <= |row|
    requires a.id in own && !own[a.id].bound && own' == own[a.id := Own(own[a.id].time, [] + [Group(a, [])], true)]
    requires forall j :: 0 <= j < i ==> own[row[j]].time < own[a.id].time
    requires i < |row| ==> own[row[i]].time > own[a.id].time
    ensures var t, row' := own[a.id].time, row[..i] + [a.id] + row[i..];
      && GroupNow(RowView(own, row), RowView(own', row'), t, Put(InGroup(RowView(own, row), t), a))
      && Rewired(own, own', row, row') && Undisturbed(own, own', a.id)
  {
    hide GroupNow, InGroup, GroupOk, Put;
    var ts, t, row' := RowView(own, row), own[a.id].time, row[..i] + [a.id] + row[i..];
    NewRow(own, own', row, i, a.id);
    assert [] + [Group(a, [])] == [Group(a, [])];
    assert TickOf(own', a.id) == Tick(a.id, t, [Group(a, [])]);
    OwnTick(ts, i, t, a);
    NewWired(own, own', row, i, a.id);
  }

  lemma {:induction false} RowAppend(own: Owns, a: seq<nat>, b: seq<nat>)
    ensures RowView(own, a + b) == RowView(own, a) + RowView(own, b)
  {
  }

  lemma {:induction false} NewRow(own: Owns, own': Owns, row: seq<nat>, i: int, id: nat)
    requires AllOwned(own, row) && 0 <= i <= |row| && id !in row && id in own'
    requires forall x :: x in own && x != id ==> x in own' && own'[x] == own[x]
    ensures var ts := RowView(own, row);
      RowView(own', row[..i] + [id] + row[i..]) == ts[..i] + [TickOf(own', id)] + ts[i..]
  {
    var a, b := row[..i], row[i..];
    PartFrame(own, own', row, id, 0, i);
    PartFrame(own, own', row, id, i, |row|);
    assert row == a + b && row[0..i] == a && row[i..|row|] == b;
    RowAppend(own, a, b);
    Slices(RowView(own, a), RowView(own, b));
    ThreeRows(own', a, id, b);
  }

  lemma {:induction false} ThreeRows(own: Owns, a: seq<nat>, id: nat, b: seq<nat>)
    ensures RowView(own, a + [id] + b) == RowView(own, a) + [TickOf(own, id)] + RowView(own, b)
  {
    var one := [id];
    RowAppend(own, a + one, b);
    RowAppend(own, a, one);
    assert RowView(own, one) == [TickOf(own, id)];
  }

  lemma Slices(a: seq<Tick>, b: seq<Tick>)
    ensures (a + b)[..|a|] == a && (a + b)[|a|..] == b
  {
  }

  lemma {:induction false} PartFrame(own: Owns, own': Owns, row: seq<nat>, id: nat, lo: int, hi: int)
    requires AllOwned(own, row) && id !in row && 0 <= lo <= hi <= |row|
    requires forall x :: x in own && x != id ==> x in own' && own'[x] == own[x]
    ensures RowView(own', row[lo..hi]) == RowView(own, row[lo..hi])
  {
    forall i | lo <= i < hi ensures row[i] in own && row[i] != id {
      assert row[i] in row;
    }
    RowFrame(own, own', row[lo..hi]);
  }

  lemma {:induction false} NewWired(own: Owns, own': Owns, row: seq<nat>, i: int, id: nat)
    requires (forall x :: x in row ==> x in own && own[x].bound) && 0 <= i <= |row| && id in own && !own[id].bound
    requires own'.Keys == own.Keys && own'[id].bound && forall x :: x in own && x != id ==> own'[x] == own[x]
    ensures Rewired(own, own', row, row[..i] + [id] + row[i..]) && Undisturbed(own, own', id)
  {
    var row' := row[..i] + [id] + row[i..];
    assert row == row[..i] + row[i..];
    assert forall y :: y in row' <==> y in row || y == id;
  }

  lemma {:induction false} OwnTick(ts: seq<Tick>, i: int, t: nat, a: Action)
    requires GroupOk(ts) && 0 <= i <= |ts| && (forall j :: 0 <= j < i ==> ts[j].time < t)
    requires (i < |ts| ==> ts[i].time > t)
    ensures GroupNow(ts, ts[..i] + [Tick(a.id, t, [Group(a, [])])] + ts[i..], t, Put(InGroup(ts, t), a))
  {
    hide GroupNow, InGroup;
    var x := Tick(a.id, t, [Group(a, [])]);
    HeadAt(x.actions, 0);
    FlatOne(Group(a, []));
    assert Members(Group(a, [])) == [a];
    TickBetween(ts, i, x);
  }

  /** The timers whose actions are due at `t` have records for `t`, bound only in this row. */
  ghost predicate AllOf(own: Owns, row: seq<nat>, q: seq<Action>, t: nat) {
    forall k :: 0 <= k < |q| ==> q[k].id in own && own[q[k].id].time == t && (own[q[k].id].bound ==> q[k].id in row)
  }

  /**
   The action of an unfired timer leaves its tick; if the timer stands for the tick, another one takes over
   the list.
   */
  method LeaveGroup(own: Owns, row: seq<nat>, id: nat) returns (own': Owns, row': seq<nat>)
    requires AllOwned(own, row) && GroupOk(RowView(own, row)) && (forall x :: x in row ==> own[x].bound)
    requires id in own && (own[id].bound <==> id in row)
    requires var q := InGroup(RowView(own, row), own[id].time);
      UniqueIds(q) && AllOf(own, row, q, own[id].time) && exists k :: 0 <= k < |q| && q[k].id == id
    ensures var t := own[id].time;
      GroupNow(RowView(own, row), RowView(own', row'), t, Minus(InGroup(RowView(own, row), t), id))
    ensures Rewired(own, own', row, row') && Undisturbed(own, own', id) && own'.Keys == own.Keys
    ensures !own'[id].bound && own'[id].time == own[id].time
  {
    hide GroupNow, InGroup, Minus, Flat, Proper, Members, GroupOk, UniqueIds, Rewired, Undisturbed, AllOf;
    SomeTick(RowView(own, row), own[id].time);
    if !own[id].bound {
      own' := LeaveList(own, row, id);
      row' := row;
    } else {
      own', row' := LeaveRow(own, row, id);
    }
  }

  /** The timer does not stand for its tick: only the list of the one that does changes. */
  method LeaveList(own: Owns, row: seq<nat>, id: nat) returns (own': Owns)
    requires AllOwned(own, row) && GroupOk(RowView(own, row)) && (forall x :: x in row ==> own[x].bound)
    requires id in own && !own[id].bound && exists k :: 0 <= k < |row| && own[row[k]].time == own[id].time
    requires var q := InGroup(RowView(own, row), own[id].time);
      UniqueIds(q) && exists k :: 0 <= k < |q| && q[k].id == id
    ensures var t := own[id].time;
      GroupNow(RowView(own, row), RowView(own', row), t, Minus(InGroup(RowView(own, row), t), id))
    ensures Rewired(own, own', row, row) && Undisturbed(own, own', id) && own'.Keys == own.Keys
    ensures own'[id] == own[id]
  {
    hide GroupNow, InGroup, Minus, Flat, Proper, Members, GroupOk, UniqueIds, Rewired, Undisturbed;
    ghost var ts := RowView(own, row);
    var k := FindTick(own, row, own[id].time);
    var x := row[k];
    assert x in row;
    GroupTick(ts, k);
    var found, i, j := Find(own[x].actions, id);
    var rest := Delete(own[x].actions, i, j);
    MinusAt(Flat(own[x].actions), Rank(own[x].actions, i, j));
    own' := own[x := own[x].(actions := rest)];
    RowChanged(own, row, k, own'[x]);
    TickChanged(ts, k, Tick(x, own[x].time, rest));
    SameRow(own, own', row, x, id);
  }

  lemma {:induction false} SameRow(own: Owns, own': Owns, row: seq<nat>, x: nat, id: nat)
    requires x in own && x in row && (forall y :: y in row ==> y in own && own[y].bound)
    requires own'.Keys == own.Keys && own'[x].bound && own'[x].time == own[x].time
    requires forall y :: y in own && y != x ==> own'[y] == own[y]
    ensures Rewired(own, own', row, row) && Undisturbed(own, own', id)
  {
  }

  /** The timer stands for its tick. */
  method LeaveRow(own: Owns, row: seq<nat>, id: nat) returns (own': Owns, row': seq<nat>)
    requires AllOwned(own, row) && GroupOk(RowView(own, row)) && (forall x :: x in row ==> own[x].bound)
    requires id in own && id in row
    requires var q := InGroup(RowView(own, row), own[id].time); UniqueIds(q) && AllOf(own, row, q, own[id].time)
    ensures var t := own[id].time;
      GroupNow(RowView(own, row), RowView(own', row'), t, Minus(InGroup(RowView(own, row), t), id))
    ensures Rewired(own, own', row, row') && Undisturbed(own, own', id) && own'.Keys == own.Keys
    ensures !own'[id].bound && own'[id].time == own[id].time
  {
    hide GroupNow, InGroup, Minus, Flat, Proper, GroupOk, UniqueIds, Rewired, Undisturbed, AllOf, IsHead;
    var k := PlaceOf(row, id);
    GroupTick(RowView(own, row), k);
    var actions := own[id].actions;
    HeadMember(actions, id);
    var rest := WithoutEntry(actions, id);
    if |actions| != 1 || actions[0].head.id != id || actions[0].rest != [] {
      TakesOver(own, RowView(own, row), row, k, rest, id);
      own', row' := HandList(own, row, k, rest);
    } else {
      own', row' := own[id := own[id].(bound := false)], row[..k] + row[k + 1..];
      NoneFlat();
      RowLeft(own, own', row, k);
    }
  }

  method PlaceOf(row: seq<nat>, id: nat) returns (k: nat)
    requires id in row
    ensures k < |row| && row[k] == id
  {
    k := 0;
    while row[k] != id
      invariant 0 <= k < |row| && id in row[k..]
      decreases |row| - k
    {
      assert row[k..] == [row[k]] + row[k + 1..];
      k := k + 1;
    }
  }

  /** A list without the action of `id`; nothing is left exactly if it was alone. */
  method WithoutEntry(actions: seq<Group>, id: nat) returns (rest: seq<Group>)
    requires Proper(actions) && UniqueIds(Flat(actions))
    requires exists k :: 0 <= k < |Flat(actions)| && Flat(actions)[k].id == id
    ensures Proper(rest) && Flat(rest) == Minus(Flat(actions), id)
    ensures rest == [] <==> |actions| == 1 && actions[0].head.id == id && actions[0].rest == []
  {
    hide Minus, Flat, Proper, Members, UniqueIds;
    var found, i, j := Find(actions, id);
    rest := Delete(actions, i, j);
    MinusAt(Flat(actions), Rank(actions, i, j));
    LeftOver(actions, i, j, id);
  }

  lemma {:induction false} LeftOver(gs: seq<Group>, i: int, j: int, id: nat)
    requires 0 <= i < |gs| && 0 <= j <= |gs[i].rest| && Members(gs[i])[j].id == id
    ensures Deleted(gs, i, j) == [] <==> |gs| == 1 && gs[0].head.id == id && gs[0].rest == []
  {
  }

  lemma {:induction false} NoneFlat()
    ensures Flat([]) == []
  {
  }

  /** The first head that is left takes over: its own list head gets the list, its own record the place in the row. */
  method HandList(own: Owns, row: seq<nat>, k: nat, rest: seq<Group>) returns (own': Owns, row': seq<nat>)
    requires AllOwned(own, row) && GroupOk(RowView(own, row)) && (forall x :: x in row ==> own[x].bound) && k < |row|
    requires rest != [] && Proper(rest)
    requires var nt := rest[0].head.id; nt in own && nt != row[k] && own[nt].time == own[row[k]].time && !own[nt].bound
    ensures GroupNow(RowView(own, row), RowView(own', row'), own[row[k]].time, Flat(rest))
    ensures Rewired(own, own', row, row') && Undisturbed(own, own', row[k]) && own'.Keys == own.Keys
    ensures !own'[row[k]].bound && own'[row[k]].time == own[row[k]].time
  {
    hide GroupNow, Flat, Proper, GroupOk, Rewired, Undisturbed;
    var id, nt := row[k], rest[0].head.id;
    HeadAt(rest, 0);
    own' := own[id := own[id].(bound := false)][nt := own[nt].(actions := rest, bound := true)];
    row' := row[k := nt];
    TakenOver(own, own', row, k, nt, rest);
  }

  lemma {:induction false} HeadMember(gs: seq<Group>, id: nat)
    requires IsHead(gs, id)
    ensures exists k :: 0 <= k < |Flat(gs)| && Flat(gs)[k].id == id
  {
    var i :| 0 <= i < |gs| && gs[i].head.id == id;
    FlatAround(gs, i);
    var k := |Flat(gs[..i])|;
    assert Members(gs[i])[0] == gs[i].head;
    assert Flat(gs)[k] == gs[i].head;
  }

  /** The timer that takes over has a record for the same tick and is not bound. */
  lemma {:induction false} TakesOver(own: Owns, ts: seq<Tick>, row: seq<nat>, k: int, rest: seq<Group>, id: nat)
    requires AllOwned(own, row) && ts == RowView(own, row) && GroupOk(ts) && 0 <= k < |row| && row[k] == id
    requires rest != []
    requires AllOf(own, row, Flat(own[id].actions), own[id].time) && Flat(rest) == Minus(Flat(own[id].actions), id)
    ensures var nt := rest[0].head.id;
      nt in own && own[nt].time == own[id].time && nt != id && !own[nt].bound
  {
    hide Minus, GroupOk;
    FirstEntry(rest);
    var q := Flat(own[id].actions);
    MinusMember(q, id, rest[0].head);
    assert Flat(rest)[0] in Flat(rest);
    var i :| 0 <= i < |q| && q[i] == rest[0].head;
    Apart(own, row, k, rest[0].head.id);
  }

  lemma {:induction false} MinusMember(q: seq<Action>, id: nat, a: Action)
    ensures a in Minus(q, id) <==> a in q && a.id != id
  {
    if q != [] { MinusMember(q[1..], id, a); }
  }

  lemma {:induction false} TakenOver(own: Owns, own': Owns, row: seq<nat>, k: int, nt: nat, rest: seq<Group>)
    requires AllOwned(own, row) && GroupOk(RowView(own, row)) && (forall x :: x in row ==> own[x].bound)
    requires 0 <= k < |row|
    requires nt in own && nt != row[k] && own[nt].time == own[row[k]].time && !own[nt].bound
    requires own' == own[row[k] := own[row[k]].(bound := false)][nt := own[nt].(actions := rest, bound := true)]
    requires Proper(rest) && IsHead(rest, nt)
    ensures GroupNow(RowView(own, row), RowView(own', row[k := nt]), own[row[k]].time, Flat(rest))
    ensures Rewired(own, own', row, row[k := nt]) && Undisturbed(own, own', row[k])
  {
    hide GroupNow, Proper, Flat, Rewired, Undisturbed, GroupOk;
    var ts, id := RowView(own, row), row[k];
    Apart(own, row, k, nt);
    TakenRow(own, own', row, k, nt);
    TickChanged(ts, k, Tick(nt, own[id].time, rest));
    TakenWired(own, own', row, k, nt);
  }

  /** No other timer of the row is the one at `k` or has the same tick. */
  lemma {:induction false} Apart(own: Owns, row: seq<nat>, k: int, nt: nat)
    requires AllOwned(own, row) && GroupOk(RowView(own, row)) && 0 <= k < |row|
    ensures forall j :: 0 <= j < |row| && j != k ==> row[j] != row[k]
    ensures nt in own && own[nt].time == own[row[k]].time ==> forall j :: 0 <= j < |row| && j != k ==> row[j] != nt
  {
    var ts := RowView(own, row);
    forall j | 0 <= j < |row| && j != k ensures own[row[j]].time != own[row[k]].time {
      assert ts[j].time != ts[k].time;
    }
  }

  lemma {:induction false} TakenRow(own: Owns, own': Owns, row: seq<nat>, k: int, nt: nat)
    requires AllOwned(own, row) && 0 <= k < |row| && nt in own && own'.Keys == own.Keys
    requires forall j :: 0 <= j < |row| && j != k ==> own'[row[j]] == own[row[j]]
    ensures RowView(own', row[k := nt]) == RowView(own, row)[k := TickOf(own', nt)]
  {
  }

  lemma {:induction false} TakenWired(own: Owns, own': Owns, row: seq<nat>, k: int, nt: nat)
    requires (forall x :: x in row ==> x in own && own[x].bound) && 0 <= k < |row| && nt in own && nt != row[k]
    requires forall j :: 0 <= j < |row| && j != k ==> row[j] != row[k] && row[j] != nt
    requires own'.Keys == own.Keys && !own'[row[k]].bound && own'[nt].bound && own'[nt].time == own[nt].time
    requires forall x :: x in own && x != row[k] && x != nt ==> own'[x] == own[x]
    requires !own[nt].bound
    ensures Rewired(own, own', row, row[k := nt]) && Undisturbed(own, own', row[k])
  {
    InRowChanged(row, k, nt);
    assert row[k] in row;
  }

  lemma {:induction false} InRowChanged(row: seq<nat>, k: int, nt: nat)
    requires 0 <= k < |row| && (forall j :: 0 <= j < |row| && j != k ==> row[j] != row[k])
    ensures forall x :: x in row[k := nt] <==> x == nt || (x in row && x != row[k])
  {
    forall x ensures x in row[k := nt] <==> x == nt || (x in row && x != row[k]) {
      if x in row && x != row[k] {
        var j :| 0 <= j < |row| && row[j] == x;
        assert row[k := nt][j] == x;
      }
      assert row[k := nt][k] == nt;
    }
  }

  /** The timer at position `k` has left the row, and its tick with it. */
  lemma {:induction false} RowLeft(own: Owns, own': Owns, row: seq<nat>, k: int)
    requires AllOwned(own, row) && GroupOk(RowView(own, row)) && (forall x :: x in row ==> own[x].bound)
    requires 0 <= k < |row|
    requires own'.Keys == own.Keys && !own'[row[k]].bound && own'[row[k]].time == own[row[k]].time
    requires forall x :: x in own && x != row[k] ==> own'[x] == own[x]
    ensures var row' := row[..k] + row[k + 1..];
      && GroupNow(RowView(own, row), RowView(own', row'), own[row[k]].time, [])
      && Rewired(own, own', row, row') && Undisturbed(own, own', row[k])
  {
    hide GroupNow, GroupOk, Rewired, Undisturbed;
    var ts := RowView(own, row);
    Apart(own, row, k, row[k]);
    LeftRow(own, own', row, k);
    TickGone(ts, k);
    LeftWired(own, own', row, k);
  }

  lemma {:induction false} LeftRow(own: Owns, own': Owns, row: seq<nat>, k: int)
    requires AllOwned(own, row) && 0 <= k < |row| && own'.Keys == own.Keys
    requires forall j :: 0 <= j < |row| && j != k ==> own'[row[j]] == own[row[j]]
    ensures var ts := RowView(own, row); RowView(own', row[..k] + row[k + 1..]) == ts[..k] + ts[k + 1..]
  {
    var ts, row' := RowView(own, row), row[..k] + row[k + 1..];
    assert forall j :: 0 <= j < |row'| ==> row'[j] == if j < k then row[j] else row[j + 1];
  }

  lemma {:induction false} LeftWired(own: Owns, own': Owns, row: seq<nat>, k: int)
    requires (forall x :: x in row ==> x in own && own[x].bound) && 0 <= k < |row|
    requires forall j :: 0 <= j < |row| && j != k ==> row[j] != row[k]
    requires own'.Keys == own.Keys && !own'[row[k]].bound && forall x :: x in own && x != row[k] ==> own'[x] == own[x]
    ensures Rewired(own, own', row, row[..k] + row[k + 1..]) && Undisturbed(own, own', row[k])
  {
    var row' := row[..k] + row[k + 1..];
    forall x ensures x in row' <==> x in row && x != row[k] {
      if x in row && x != row[k] {
        var j :| 0 <= j < |row| && row[j] == x;
        assert row'[if j < k then j else j - 1] == x;
      }
    }
    assert row[k] in row;
  }

  lemma {:induction false} SomeTick(ts: seq<Tick>, time: nat)
    ensures InGroup(ts, time) != [] ==> exists k :: 0 <= k < |ts| && ts[k].time == time
  {
    if ts != [] && ts[0].time != time {
      SomeTick(ts[1..], time);
      if k :| 0 <= k < |ts[1..]| && ts[1..][k].time == time { assert ts[k + 1].time == time; }
    }
  }

  /** The tick at `t` fires: the list of the timer that stands for it is handed over, and its record leaves the row. */
  method TakeRow(own: Owns, row: seq<nat>, t: nat) returns (own': Owns, row': seq<nat>, batch: seq<Group>, hit: bool)
    requires AllOwned(own, row) && GroupOk(RowView(own, row)) && forall x :: x in row ==> own[x].bound
    ensures Proper(batch) && Flat(batch) == InGroup(RowView(own, row), t) && (Flat(batch) != [] ==> hit)
    ensures GroupNow(RowView(own, row), RowView(own', row'), t, [])
    ensures Rewired(own, own', row, row') && own'.Keys == own.Keys
    ensures forall x :: x in own ==>
      own'[x].time == own[x].time && (own'[x].bound || own'[x].actions == [] || own'[x] == own[x])
  {
    hide GroupNow, InGroup, Flat, Proper, GroupOk, Rewired, Undisturbed;
    ghost var ts := RowView(own, row);
    var k := FindTick(own, row, t);
    if k == |row| {
      InGroupNone(ts, t);
      Nothing(own, row, t);
      return own, row, [], false;
    }
    GroupTick(ts, k);
    batch, hit := own[row[k]].actions, true;
    own', row' := own[row[k] := own[row[k]].(actions := [], bound := false)], row[..k] + row[k + 1..];
    RowLeft(own, own', row, k);
  }

  lemma {:induction false} Nothing(own: Owns, row: seq<nat>, t: nat)
    requires AllOwned(own, row) && GroupOk(RowView(own, row)) && (forall x :: x in row ==> own[x].bound)
    requires InGroup(RowView(own, row), t) == []
    ensures GroupNow(RowView(own, row), RowView(own, row), t, []) && Rewired(own, own, row, row)
    ensures Flat([]) == [] && Proper([])
  {
    hide InGroup, GroupOk;
    var ts := RowView(own, row);
    assert forall i :: 0 <= i < |ts| ==> ts[i].time == ts[i].time;
  }
}
