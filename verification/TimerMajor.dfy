/**
 The list of major ticks over the timers' own tick records: which timers are
 linked where, and what is due when (kernel/generic/timer.c, list-based build).
 */
module TimerMajors {
  import opened PrioLists
  import opened TimerLists
  import opened TimerSpecs
  import opened TimerRows

  ghost function RowViews(own: Owns, rows: seq<seq<nat>>): (r: seq<seq<Tick>>)
    ensures |r| == |rows| && forall s :: 0 <= s < |rows| ==> r[s] == RowView(own, rows[s])
  {
    if rows == [] then [] else [RowView(own, rows[0])] + RowViews(own, rows[1..])
  }

  ghost function MajorView(own: Owns, m: MajorTick): Major { Major(m.id, m.time, RowViews(own, m.rows)) }

  /** The list as its rows and the records behind them show it. */
  ghost function View(own: Owns, list: seq<MajorTick>): (v: seq<Major>)
    ensures |v| == |list| && forall i :: 0 <= i < |list| ==> v[i] == MajorView(own, list[i])
  {
    if list == [] then [] else [MajorView(own, list[0])] + View(own, list[1..])
  }

  ghost predicate InRow(list: seq<MajorTick>, i: int, s: int, id: nat) {
    0 <= i < |list| && 0 <= s < |list[i].rows| && id in list[i].rows[s]
  }

  /** A timer's record is bound exactly if it stands in some row. */
  ghost predicate Tied(own: Owns, list: seq<MajorTick>) {
    && (forall i, s, id :: InRow(list, i, s, id) ==> id in own && own[id].bound)
    && (forall id :: id in own && own[id].bound ==> exists i, s :: InRow(list, i, s, id))
  }

  function SetRow(list: seq<MajorTick>, i: int, s: int, row: seq<nat>): seq<MajorTick>
    requires 0 <= i < |list| && 0 <= s < |list[i].rows|
  {
    list[i := list[i].(rows := list[i].rows[s := row])]
  }

  /** A timer stands in the only row where its time belongs. */
  lemma {:induction false} Place(g: nat, own: Owns, list: seq<MajorTick>, i: int, s: int, id: nat)
    requires g > 0 && ListOk(g, View(own, list)) && Tied(own, list) && InRow(list, i, s, id)
    ensures id in own && list[i].time == Base(g, own[id].time) && s == Slot(g, own[id].time)
  {
    hide GroupOk, Base, Slot;
    var v := View(own, list);
    assert MajorOk(g, v[i]);
    var r :| 0 <= r < |list[i].rows[s]| && list[i].rows[s][r] == id;
    assert v[i].minors[s][r] == TickOf(own, id);
  }

  lemma {:induction false} OneMajor(g: nat, v: seq<Major>, i: int, j: int)
    requires ListOk(g, v) && 0 <= i < |v| && 0 <= j < |v| && v[i].time == v[j].time
    ensures i == j
  {
    hide MajorOk;
  }

  lemma {:induction false} OneRow(g: nat, own: Owns, list: seq<MajorTick>, i: int, s: int, j: int, r: int, id: nat)
    requires g > 0 && ListOk(g, View(own, list)) && Tied(own, list) && InRow(list, i, s, id) && InRow(list, j, r, id)
    ensures i == j && s == r
  {
    hide ListOk, Tied, Base, Slot;
    Place(g, own, list, i, s, id);
    Place(g, own, list, j, r, id);
    OneMajor(g, View(own, list), i, j);
  }

  /** The row for a tick: its records are there, and bound. */
  lemma {:induction false} RowFacts(g: nat, own: Owns, list: seq<MajorTick>, i: int, t: nat)
    requires Granular(g) && ListOk(g, View(own, list)) && Tied(own, list) && 0 <= i < |list|
    ensures Slot(g, t) < |list[i].rows|
    ensures var row := list[i].rows[Slot(g, t)];
      GroupOk(RowView(own, row)) && AllOwned(own, row) && forall x :: x in row ==> x in own && own[x].bound
  {
    hide GroupOk;
    SlotRange(g, t);
    var v, s := View(own, list), Slot(g, t);
    assert MajorOk(g, v[i]);
    var row := list[i].rows[s];
    forall x | x in row ensures x in own && own[x].bound { assert InRow(list, i, s, x); }
    forall k | 0 <= k < |row| ensures row[k] in own { assert row[k] in row; }
  }

  lemma {:induction false} NotThere(g: nat, own: Owns, list: seq<MajorTick>, i: int, s: int, j: int, r: int, x: nat)
    requires g > 0 && ListOk(g, View(own, list)) && Tied(own, list) && 0 <= i < |list| && 0 <= s < |list[i].rows|
    requires InRow(list, j, r, x) && (j != i || r != s)
    ensures x in own && own[x].bound && x !in list[i].rows[s]
  {
    hide ListOk;
    if x in list[i].rows[s] {
      assert InRow(list, i, s, x);
      OneRow(g, own, list, i, s, j, r, x);
    }
  }

  /** Rewiring one row leaves all other rows as they were. */
  lemma {:induction false} OtherRows(g: nat, own: Owns, own': Owns, list: seq<MajorTick>, i: int, s: int,
        row': seq<nat>, j: int, r: int)
    requires g > 0 && ListOk(g, View(own, list)) && Tied(own, list) && 0 <= i < |list| && 0 <= s < |list[i].rows|
    requires Rewired(own, own', list[i].rows[s], row') && 0 <= j < |list| && 0 <= r < |list[j].rows|
    requires (j != i || r != s)
    ensures RowView(own', list[j].rows[r]) == RowView(own, list[j].rows[r])
    ensures forall x :: x in list[j].rows[r] ==> x in own' && own'[x].bound && x !in list[i].rows[s] && x !in row'
  {
    hide ListOk, View;
    var row := list[j].rows[r];
    forall x | x in row ensures x in own && x in own' && own'[x] == own[x] && own[x].bound && x !in list[i].rows[s] {
      NotThere(g, own, list, i, s, j, r, x);
    }
    forall k | 0 <= k < |row| ensures row[k] in own && row[k] in own' && own'[row[k]] == own[row[k]] {
      assert row[k] in row;
    }
    RowFrame(own, own', row);
  }

  lemma {:induction false} Relisted(g: nat, own: Owns, own': Owns, list: seq<MajorTick>, i: int, s: int, row': seq<nat>)
    requires g > 0 && ListOk(g, View(own, list)) && Tied(own, list) && 0 <= i < |list| && 0 <= s < |list[i].rows|
    requires Rewired(own, own', list[i].rows[s], row')
    ensures var v, list' := View(own, list), SetRow(list, i, s, row');
      View(own', list') == v[i := v[i].(minors := v[i].minors[s := RowView(own', row')])]
  {
    hide ListOk, Tied, Rewired, RowView;
    var v, list' := View(own, list), SetRow(list, i, s, row');
    forall j, r | 0 <= j < |list| && 0 <= r < |list[j].rows| && (j != i || r != s)
      ensures RowView(own', list[j].rows[r]) == RowView(own, list[j].rows[r])
    {
      OtherRows(g, own, own', list, i, s, row', j, r);
    }
    forall j | 0 <= j < |list|
      ensures MajorView(own', list'[j]) == if j == i then v[i].(minors := v[i].minors[s := RowView(own', row')])
        else v[j]
    {
      SameRows(own, own', list, list', i, s, row', j);
    }
  }

  lemma {:induction false} SameRows(own: Owns, own': Owns, list: seq<MajorTick>, list': seq<MajorTick>, i: int,
        s: int, row': seq<nat>, j: int)
    requires 0 <= i < |list| && 0 <= s < |list[i].rows| && list' == SetRow(list, i, s, row') && 0 <= j < |list|
    requires forall r :: 0 <= r < |list[j].rows| && (j != i || r != s) ==>
      RowView(own', list[j].rows[r]) == RowView(own, list[j].rows[r])
    ensures MajorView(own', list'[j]) ==
      if j != i then MajorView(own, list[j])
      else MajorView(own, list[i]).(minors := RowViews(own, list[i].rows)[s := RowView(own', row')])
  {
    hide RowView;
    var a, b := RowViews(own', list'[j].rows), RowViews(own, list[j].rows);
    forall r | 0 <= r < |a| ensures a[r] == if j == i && r == s then RowView(own', row') else b[r] {
      assert list'[j].rows[r] == if j == i && r == s then row' else list[j].rows[r];
    }
  }

  lemma {:induction false} StillTied(g: nat, own: Owns, own': Owns, list: seq<MajorTick>, i: int, s: int,
        row': seq<nat>)
    requires g > 0 && ListOk(g, View(own, list)) && Tied(own, list) && 0 <= i < |list| && 0 <= s < |list[i].rows|
    requires Rewired(own, own', list[i].rows[s], row')
    ensures Tied(own', SetRow(list, i, s, row'))
  {
    hide ListOk;
    var list' := SetRow(list, i, s, row');
    forall j, r, x | InRow(list', j, r, x) ensures x in own' && own'[x].bound {
      if j != i || r != s { OtherRows(g, own, own', list, i, s, row', j, r); }
    }
    forall x | x in own' && own'[x].bound ensures exists j, r :: InRow(list', j, r, x) {
      if x in row' {
        assert InRow(list', i, s, x);
      } else {
        var j, r :| InRow(list, j, r, x);
        assert InRow(list', j, r, x);
      }
    }
  }

  /** The same major ticks stand in both lists. */
  ghost predicate SameMajors(list: seq<Major>, r: seq<Major>) {
    |r| == |list| && forall j :: 0 <= j < |r| ==> r[j].id == list[j].id && r[j].time == list[j].time
  }

  /** One row of one major tick has changed at tick `t`, from what it showed to `q`. */
  lemma {:induction false} DueUpdate(g: nat, list: seq<Major>, i: int, ts: seq<Tick>, t: nat, q: seq<Action>)
    requires Granular(g) && ListOk(g, list) && 0 <= i < |list| && list[i].time == Base(g, t)
    requires Slot(g, t) < |list[i].minors| && GroupNow(list[i].minors[Slot(g, t)], ts, t, q)
    ensures var list' := list[i := list[i].(minors := list[i].minors[Slot(g, t) := ts])];
      && ListOk(g, list') && SameMajors(list, list')
      && Due(g, list', t) == q && forall u :: u != t ==> Due(g, list', u) == Due(g, list, u)
  {
    hide Due, InGroup, GroupOk;
    var m := list[i];
    var m' := m.(minors := m.minors[Slot(g, t) := ts]);
    var list' := list[i := m'];
    MajorUpdate(g, m, ts, t, q);
    DueAt(g, list', i, t);
    assert list' == list[..i] + [m'] + list[i + 1..] && list == list[..i] + [m] + list[i + 1..];
    forall u | u != t ensures Due(g, list', u) == Due(g, list, u) {
      if Base(g, u) == m.time {
        DueAt(g, list', i, u);
        DueAt(g, list, i, u);
      } else {
        DueSkip(g, list[..i], m, list[i + 1..], u);
        DueSkip(g, list[..i], m', list[i + 1..], u);
      }
    }
  }

  lemma {:induction false} MajorUpdate(g: nat, m: Major, ts: seq<Tick>, t: nat, q: seq<Action>)
    requires Granular(g) && MajorOk(g, m) && m.time == Base(g, t)
    requires Slot(g, t) < |m.minors| && GroupNow(m.minors[Slot(g, t)], ts, t, q)
    ensures MajorOk(g, m.(minors := m.minors[Slot(g, t) := ts]))
  {
    hide InGroup, GroupOk, Base, Slot;
    var s := Slot(g, t);
    var m' := m.(minors := m.minors[s := ts]);
    forall i | 0 <= i < |ts| ensures Base(g, ts[i].time) == m.time && Slot(g, ts[i].time) == s {
      if ts[i].time != t {
        var j :| 0 <= j < |m.minors[s]| && ts[i].time == m.minors[s][j].time;
      }
    }
  }

  /** Lists and records before and after a change at tick `t` to `q`. */
  ghost predicate Changed(g: nat, own: Owns, list: seq<MajorTick>, own': Owns, list': seq<MajorTick>, t: nat,
        q: seq<Action>)
    requires g > 0
  {
    var v, v' := View(own, list), View(own', list');
    && ListOk(g, v') && SameMajors(v, v') && Tied(own', list')
    && Due(g, v', t) == q && forall u :: u != t ==> Due(g, v', u) == Due(g, v, u)
  }

  lemma {:induction false} RowNow(g: nat, own: Owns, own': Owns, list: seq<MajorTick>, i: int, row': seq<nat>, t: nat,
        q: seq<Action>)
    requires Granular(g) && ListOk(g, View(own, list)) && Tied(own, list) && 0 <= i < |list|
    requires list[i].time == Base(g, t)
    requires Slot(g, t) < |list[i].rows|
    requires var row := list[i].rows[Slot(g, t)];
      Rewired(own, own', row, row') && GroupNow(RowView(own, row), RowView(own', row'), t, q)
    ensures Changed(g, own, list, own', SetRow(list, i, Slot(g, t), row'), t, q)
  {
    hide ListOk, Tied, Rewired, GroupNow, Due, Slot, Base;
    var s, v := Slot(g, t), View(own, list);
    Relisted(g, own, own', list, i, s, row');
    StillTied(g, own, own', list, i, s, row');
    DueUpdate(g, v, i, RowView(own', row'), t, q);
  }

  /** What is due at `t` is what the row for `t` shows. */
  lemma {:induction false} RowDue(g: nat, own: Owns, list: seq<MajorTick>, i: int, t: nat)
    requires Granular(g) && ListOk(g, View(own, list)) && 0 <= i < |list| && list[i].time == Base(g, t)
    ensures Slot(g, t) < |list[i].rows|
    ensures Due(g, View(own, list), t) == InGroup(RowView(own, list[i].rows[Slot(g, t)]), t)
  {
    hide ListOk, Due, InGroup, Slot, Base;
    DueAt(g, View(own, list), i, t);
  }

  /** The scan of the list for the major tick at `base`, or the place for it. */
  method Locate(list: seq<MajorTick>, base: nat) returns (i: nat, found: bool)
    ensures i <= |list| && (found ==> i < |list| && list[i].time == base)
    ensures !found ==> (forall j :: 0 <= j < i ==> list[j].time < base) && (i < |list| ==> list[i].time > base)
  {
    i, found := 0, false;
    while i < |list|
      invariant i <= |list| && forall j :: 0 <= j < i ==> list[j].time < base
    {
      if list[i].time == base { return i, true; }
      if list[i].time > base { return i, false; }
      i := i + 1;
    }
  }

  /** Links a timer, whose record is initialised, into the row for its time. */
  method HangTimer(g: nat, own: Owns, list: seq<MajorTick>, i: nat, a: Action)
    returns (own': Owns, list': seq<MajorTick>)
    requires Granular(g) && ListOk(g, View(own, list)) && Tied(own, list) && i < |list|
    requires a.id in own && own[a.id].actions == [] && !own[a.id].bound && list[i].time == Base(g, own[a.id].time)
    ensures var t := own[a.id].time; Changed(g, own, list, own', list', t, Put(Due(g, View(own, list), t), a))
    ensures Undisturbed(own, own', a.id) && own'.Keys == own.Keys
    ensures own'[a.id].time == own[a.id].time && (own'[a.id].bound || own'[a.id].actions == [])
  {
    hide ListOk, Tied, Due, GroupNow, GroupOk, Base, Slot, Put, Rewired, Undisturbed, Changed, InGroup;
    var t := own[a.id].time;
    RowFacts(g, own, list, i, t);
    RowDue(g, own, list, i, t);
    var s := Slot(g, t);
    var row';
    own', row' := JoinTick(own, list[i].rows[s], a);
    RowNow(g, own, own', list, i, row', t, Put(Due(g, View(own, list), t), a));
    list' := SetRow(list, i, s, row');
  }

  /** Takes the action of an unfired timer out of its tick. */
  method LeaveTick(g: nat, own: Owns, list: seq<MajorTick>, i: nat, id: nat) returns (own': Owns, list': seq<MajorTick>)
    requires Granular(g) && ListOk(g, View(own, list)) && Tied(own, list) && i < |list|
    requires id in own && list[i].time == Base(g, own[id].time)
    requires var q := Due(g, View(own, list), own[id].time);
      && UniqueIds(q) && (exists k :: 0 <= k < |q| && q[k].id == id)
      && forall k :: 0 <= k < |q| ==> q[k].id in own && own[q[k].id].time == own[id].time
    ensures var t := own[id].time; Changed(g, own, list, own', list', t, Minus(Due(g, View(own, list), t), id))
    ensures Undisturbed(own, own', id) && own'.Keys == own.Keys && !own'[id].bound && own'[id].time == own[id].time
  {
    hide ListOk, Tied, Due, GroupNow, GroupOk, Base, Slot, Minus, Rewired, Undisturbed, Changed, InGroup, UniqueIds;
    var t := own[id].time;
    RowFacts(g, own, list, i, t);
    RowDue(g, own, list, i, t);
    var s := Slot(g, t);
    BoundHere(g, own, list, i, t, Due(g, View(own, list), t));
    var row';
    own', row' := LeaveGroup(own, list[i].rows[s], id);
    RowNow(g, own, own', list, i, row', t, Minus(Due(g, View(own, list), t), id));
    list' := SetRow(list, i, s, row');
  }

  /** Of the timers due at `t`, only those in the row for `t` are bound. */
  lemma {:induction false} BoundHere(g: nat, own: Owns, list: seq<MajorTick>, i: int, t: nat, q: seq<Action>)
    requires Granular(g) && ListOk(g, View(own, list)) && Tied(own, list) && 0 <= i < |list|
    requires list[i].time == Base(g, t)
    requires Slot(g, t) < |list[i].rows| && forall k :: 0 <= k < |q| ==> q[k].id in own && own[q[k].id].time == t
    ensures AllOf(own, list[i].rows[Slot(g, t)], q, t)
  {
    hide ListOk, Base, Slot;
    forall k | 0 <= k < |q| && own[q[k].id].bound ensures q[k].id in list[i].rows[Slot(g, t)] {
      var j, r :| InRow(list, j, r, q[k].id);
      Place(g, own, list, j, r, q[k].id);
      OneMajor(g, View(own, list), i, j);
    }
  }

  /** Exactly one of the timers of a tick is bound: the one that stands for it. */
  lemma {:induction false} OneBound(g: nat, own: Owns, list: seq<MajorTick>, t: nat)
    requires Granular(g) && ListOk(g, View(own, list)) && Tied(own, list) && Due(g, View(own, list), t) != []
    ensures exists x ::
      x in own && own[x].bound && own[x].time == t && Flat(own[x].actions) == Due(g, View(own, list), t)
    ensures forall x, y :: x in own && y in own && own[x].bound && own[y].bound ==>
      own[x].time == t && own[y].time == t ==> x == y
  {
    hide ListOk, Base, Slot, InGroup, GroupOk;
    var v := View(own, list);
    if forall i :: 0 <= i < |list| ==> list[i].time != Base(g, t) { DueNone(g, v, t); }
    var i :| 0 <= i < |list| && list[i].time == Base(g, t);
    RowFacts(g, own, list, i, t);
    RowDue(g, own, list, i, t);
    var row := list[i].rows[Slot(g, t)];
    SomeTick(RowView(own, row), t);
    var k :| 0 <= k < |row| && RowView(own, row)[k].time == t;
    GroupTick(RowView(own, row), k);
    assert row[k] in row;
    forall x | x in own && own[x].bound && own[x].time == t ensures x == row[k] {
      var j, r :| InRow(list, j, r, x);
      Place(g, own, list, j, r, x);
      OneMajor(g, v, i, j);
      var l :| 0 <= l < |row| && row[l] == x;
      Apart(own, row, k, x);
    }
  }

  /** The timers of tick `now` leave their row. */
  method TakeTick(g: nat, own: Owns, list: seq<MajorTick>, now: nat)
    returns (own': Owns, list': seq<MajorTick>, batch: seq<Group>, hit: bool)
    requires Granular(g) && ListOk(g, View(own, list)) && Tied(own, list) && list != [] && list[0].time == Base(g, now)
    ensures Changed(g, own, list, own', list', now, [])
    ensures Proper(batch) && Flat(batch) == Due(g, View(own, list), now) && (Flat(batch) != [] ==> hit)
    ensures own'.Keys == own.Keys && forall x :: x in own ==>
      own'[x].time == own[x].time && (own'[x].bound || own'[x].actions == [] || own'[x] == own[x])
  {
    hide ListOk, Tied, Due, GroupNow, GroupOk, Base, Rewired, Changed, InGroup, Flat, Proper;
    RowFacts(g, own, list, 0, now);
    RowDue(g, own, list, 0, now);
    var s := (now - Base(g, now)) / MINOR_TICK_GROUP_SIZE;
    SlotIs(g, now);
    var row';
    own', row', batch, hit := TakeRow(own, list[0].rows[s], now);
    RowNow(g, own, own', list, 0, row', now, []);
    list' := SetRow(list, 0, s, row');
  }

  lemma {:induction false} SlotIs(g: nat, t: nat)
    requires g > 0
    ensures Base(g, t) <= t && (t - Base(g, t)) / MINOR_TICK_GROUP_SIZE == Slot(g, t)
  {
  }

  function EmptyTick(g: nat, id: nat, time: nat): MajorTick {
    MajorTick(id, time, seq(g / MINOR_TICK_GROUP_SIZE, _ => []))
  }

  ghost function EmptyMajor(g: nat, id: nat, time: nat): Major { Major(id, time,
        seq(g / MINOR_TICK_GROUP_SIZE, _ => [])) }

  lemma {:induction false} EmptyView(own: Owns, g: nat, id: nat, time: nat)
    ensures MajorView(own, EmptyTick(g, id, time)) == EmptyMajor(g, id, time)
  {
  }

  lemma {:induction false} ViewBetween(own: Owns, a: seq<MajorTick>, m: MajorTick, b: seq<MajorTick>)
    ensures View(own, a + [m] + b) == View(own, a) + [MajorView(own, m)] + View(own, b)
    ensures View(own, a + b) == View(own, a) + View(own, b)
  {
    hide MajorView;
    var one := [m];
    ViewAppend(own, a + one, b);
    ViewAppend(own, a, one);
    ViewAppend(own, a, b);
    assert View(own, one) == [MajorView(own, m)];
  }

  lemma {:induction false} ViewAppend(own: Owns, a: seq<MajorTick>, b: seq<MajorTick>)
    ensures View(own, a + b) == View(own, a) + View(own, b)
  {
    hide MajorView;
  }

  /** A new major tick without timers changes nothing that is due. */
  lemma {:induction false} DueInsert(g: nat, list: seq<Major>, i: int, id: nat, time: nat)
    requires Granular(g) && ListOk(g, list) && 0 <= i <= |list| && Base(g, time) == time
    requires forall j :: 0 <= j < |list| ==> list[j].id != id
    requires (forall j :: 0 <= j < i ==> list[j].time < time) && (i < |list| ==> list[i].time > time)
    ensures var list' := list[..i] + [EmptyMajor(g, id, time)] + list[i..];
      ListOk(g, list') && forall u :: Due(g, list', u) == Due(g, list, u)
  {
    hide Due, MajorOk;
    var m := EmptyMajor(g, id, time);
    var list' := list[..i] + [m] + list[i..];
    EmptyOk(g, id, time);
    MajorBetween(g, list, i, m);
    assert list == list[..i] + list[i..];
    forall u ensures Due(g, list', u) == Due(g, list, u) {
      if Base(g, u) == time {
        DueAt(g, list', i, u);
        DueNone(g, list, u);
        NothingIn(g, id, time, u);
      } else {
        DueSkip(g, list[..i], m, list[i..], u);
      }
    }
  }

  lemma {:induction false} EmptyOk(g: nat, id: nat, time: nat)
    requires Granular(g) && Base(g, time) == time
    ensures MajorOk(g, EmptyMajor(g, id, time))
  {
  }

  lemma {:induction false} NothingIn(g: nat, id: nat, time: nat, u: nat)
    requires Granular(g)
    ensures var m := EmptyMajor(g, id, time); Slot(g, u) < |m.minors| && InGroup(m.minors[Slot(g, u)], u) == []
  {
    SlotRange(g, u);
  }

  lemma {:induction false} MajorBetween(g: nat, list: seq<Major>, i: int, m: Major)
    requires ListOk(g, list) && MajorOk(g, m) && 0 <= i <= |list|
    requires (forall j :: 0 <= j < |list| ==> list[j].id != m.id)
    requires (forall j :: 0 <= j < i ==> list[j].time < m.time) && (i < |list| ==> list[i].time > m.time)
    ensures var r := list[..i] + [m] + list[i..];
      ListOk(g, r) && r[i] == m && forall j :: 0 <= j < |list| ==> list[j].time != m.time
  {
    hide MajorOk;
    var r := list[..i] + [m] + list[i..];
    assert forall a :: 0 <= a < |r| ==> r[a] == (if a < i then list[a] else if a == i then m else list[a - 1]);
  }

  /** Links a new major tick in front of position `i`. */
  method NewMajor(g: nat, ghost own: Owns, list: seq<MajorTick>, i: nat, id: nat, base: nat) returns (r: seq<MajorTick>)
    requires Granular(g) && ListOk(g, View(own, list)) && Tied(own, list) && i <= |list| && Base(g, base) == base
    requires forall j :: 0 <= j < |list| ==> list[j].id != id
    requires (forall j :: 0 <= j < i ==> list[j].time < base) && (i < |list| ==> list[i].time > base)
    ensures var v, v' := View(own, list), View(own, r);
      && v' == v[..i] + [EmptyMajor(g, id, base)] + v[i..]
      && ListOk(g, v') && Tied(own, r) && forall u :: Due(g, v', u) == Due(g, v, u)
    ensures i < |r| && r[i].id == id && r[i].time == base
  {
    hide ListOk, Due, Tied;
    r := list[..i] + [EmptyTick(g, id, base)] + list[i..];
    EmptyView(own, g, id, base);
    ViewBetween(own, list[..i], EmptyTick(g, id, base), list[i..]);
    assert list == list[..i] + list[i..];
    ViewSlices(own, list, i);
    DueInsert(g, View(own, list), i, id, base);
    TiedMore(own, list, i, g, id, base);
  }

  lemma {:induction false} ViewSlices(own: Owns, list: seq<MajorTick>, i: int)
    requires 0 <= i <= |list|
    ensures View(own, list)[..i] == View(own, list[..i]) && View(own, list)[i..] == View(own, list[i..])
  {
    hide MajorView;
  }

  lemma {:induction false} TiedMore(own: Owns, list: seq<MajorTick>, i: int, g: nat, id: nat, base: nat)
    requires Tied(own, list) && 0 <= i <= |list|
    ensures Tied(own, list[..i] + [EmptyTick(g, id, base)] + list[i..])
  {
    var m := EmptyTick(g, id, base);
    var r := list[..i] + [m] + list[i..];
    assert forall a :: 0 <= a < |r| ==> r[a] == (if a < i then list[a] else if a == i then m else list[a - 1]);
    forall j, s, x | InRow(r, j, s, x) ensures x in own && own[x].bound {
      assert InRow(list, if j < i then j else j - 1, s, x);
    }
    forall x | x in own && own[x].bound ensures exists j, s :: InRow(r, j, s, x) {
      var j, s :| InRow(list, j, s, x);
      assert InRow(r, if j < i then j else j + 1, s, x);
    }
  }

  /** A major tick on which nothing is due can go. */
  lemma {:induction false} DueDrop(g: nat, list: seq<Major>, i: int)
    requires Granular(g) && ListOk(g, list) && 0 <= i < |list|
    requires forall u :: Base(g, u) == list[i].time ==> Due(g, list, u) == []
    ensures var list' := list[..i] + list[i + 1..];
      ListOk(g, list') && forall u :: Due(g, list', u) == Due(g, list, u)
  {
    hide Due, MajorOk;
    var list' := list[..i] + list[i + 1..];
    assert forall a :: 0 <= a < |list'| ==> list'[a] == (if a < i then list[a] else list[a + 1]);
    assert list == list[..i] + [list[i]] + list[i + 1..];
    forall u ensures Due(g, list', u) == Due(g, list, u) {
      if Base(g, u) == list[i].time {
        DueNone(g, list', u);
      } else {
        DueSkip(g, list[..i], list[i], list[i + 1..], u);
      }
    }
  }

  /** Its rows are empty, so no record is left behind bound. */
  lemma {:induction false} NoRows(g: nat, own: Owns, list: seq<MajorTick>, i: int, s: int, x: nat)
    requires Granular(g) && ListOk(g, View(own, list)) && Tied(own, list) && 0 <= i < |list|
    requires forall u :: Base(g, u) == list[i].time ==> Due(g, View(own, list), u) == []
    ensures !InRow(list, i, s, x)
  {
    hide ListOk, Base, Slot, InGroup, GroupOk, Due;
    if InRow(list, i, s, x) {
      Place(g, own, list, i, s, x);
      var t, row := own[x].time, list[i].rows[s];
      RowFacts(g, own, list, i, t);
      RowDue(g, own, list, i, t);
      var k :| 0 <= k < |row| && row[k] == x;
      GroupTick(RowView(own, row), k);
      HeadMember(own[x].actions, x);
    }
  }

  /** Takes a major tick on which nothing is due off the list. */
  method DropMajor(g: nat, ghost own: Owns, list: seq<MajorTick>, i: nat) returns (r: seq<MajorTick>)
    requires Granular(g) && ListOk(g, View(own, list)) && Tied(own, list) && i < |list|
    requires forall u :: Base(g, u) == list[i].time ==> Due(g, View(own, list), u) == []
    ensures var v, v' := View(own, list), View(own, r);
      && v' == v[..i] + v[i + 1..] && ListOk(g, v') && Tied(own, r) && forall u :: Due(g, v', u) == Due(g, v, u)
    ensures r == list[..i] + list[i + 1..]
  {
    hide ListOk, Due, Tied, Base;
    r := list[..i] + list[i + 1..];
    ViewBetween(own, list[..i], list[i], list[i + 1..]);
    ViewSlices(own, list, i);
    ViewSlices(own, list, i + 1);
    DueDrop(g, View(own, list), i);
    TiedLess(g, own, list, i);
  }

  lemma {:induction false} TiedLess(g: nat, own: Owns, list: seq<MajorTick>, i: int)
    requires Granular(g) && ListOk(g, View(own, list)) && Tied(own, list) && 0 <= i < |list|
    requires forall u :: Base(g, u) == list[i].time ==> Due(g, View(own, list), u) == []
    ensures Tied(own, list[..i] + list[i + 1..])
  {
    hide ListOk, Due, Base, Granular, Tied, InRow;
    forall s, x ensures !InRow(list, i, s, x) { NoRows(g, own, list, i, s, x); }
    TiedWithout(own, list, i);
  }

  lemma {:induction false} TiedWithout(own: Owns, list: seq<MajorTick>, i: int)
    requires Tied(own, list) && 0 <= i < |list| && forall s, x :: !InRow(list, i, s, x)
    ensures Tied(own, list[..i] + list[i + 1..])
  {
    var r := list[..i] + list[i + 1..];
    assert forall a :: 0 <= a < |r| ==> r[a] == (if a < i then list[a] else list[a + 1]);
    forall j, s, x | InRow(r, j, s, x) ensures x in own && own[x].bound {
      assert InRow(list, if j < i then j else j + 1, s, x);
    }
    forall x | x in own && own[x].bound ensures exists j, s :: InRow(r, j, s, x) {
      var j, s :| InRow(list, j, s, x);
      assert InRow(r, if j < i then j else j - 1, s, x);
    }
  }
}
