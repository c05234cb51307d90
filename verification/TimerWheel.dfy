/**
 Software timers: arming, disarming and the tick (kernel/generic/timer.c,
 list-based build), against the list of armed timers.
 */
module TimerWheels {
  import opened PrioLists
  import opened PrioOps
  import opened TimerLists
  import opened TimerSpecs
  import opened TimerRows
  import opened TimerMajors
  import opened TimerLedgers

  /** Every attached timer has a record for its time; unless the record is bound, it heads no list. */
  ghost predicate Owned(own: Owns, attached: map<nat, Timer>) {
    forall id :: id in attached ==>
      id in own && own[id].time == attached[id].time && (own[id].bound || own[id].actions == [])
  }

  class Timers {
    const granularity: nat
    const queue: DeferredActions
    var now: nat
    var lastProcessed: nat
    /** The tick records of all timers, attached or not. */
    var own: Owns
    var list: seq<MajorTick>
    /** Use counters of all major ticks that are not free. */
    var uses: map<nat, nat>
    var attached: map<nat, Timer>
    var nextMajor: nat
    /** The specification: what is armed, in the order of arming. */
    ghost var armed: seq<Arm>

    ghost predicate Valid()
      reads this, queue
    {
      && queue.Valid() && lastProcessed <= now && Tied(own, list) && Owned(own, attached)
      && Shows(granularity, View(own, list), armed) && Pending(attached, now, armed)
      && Hung(granularity, View(own, list), attached, now) && Counted(View(own, list), attached, uses, nextMajor)
      && Alive(granularity, View(own, list), now)
      && (forall id :: id in attached && attached[id].time <= now ==> attached[id].time <= lastProcessed)
    }

    constructor (g: nat)
      requires Granular(g)
      ensures Valid() && granularity == g && now == 0 && armed == [] && attached == map[] && own == map[]
      ensures queue.Queue() == [] && queue.executers == 0 && queue.hosted == {} && fresh(queue)
    {
      granularity, now, lastProcessed, own, list, uses := g, 0, 0, map[], [], map[];
      attached, nextMajor, armed := map[], 0, [];
      queue := new DeferredActions();
    }

    /** The record of a timer that is not attached becomes that of a new timer. */
    method Init(id: nat, time: nat)
      requires Valid() && id !in attached
      modifies this`own
      ensures Valid() && own == old(own)[id := Own(time, [], false)]
    {
      hide Shows, Pending, Hung, Counted, Alive, Flat, Proper, Tied;
      NotBound(granularity, own, list, armed, attached, now, id);
      NewRecord(own, list, id, Own(time, [], false));
      own := own[id := Own(time, [], false)];
    }

    /** Arms a timer: 0, or -22 for a timer without a time; a timer of the past is executed at once. */
    method AddTimer(id: nat, time: nat, prio: nat) returns (r: int, executed: bool)
      requires Valid() && id !in attached && id in own && own[id].time == time && own[id].actions == []
      modifies this
      ensures Valid() && now == old(now) && queue.Queue() == old(queue.Queue())
      ensures r == (if time == 0 then -22 else 0) && executed == (0 < time <= now)
      ensures time <= now ==> armed == old(armed) && attached == old(attached)
      ensures time > now ==> armed == old(armed) + [Arm(id, time, prio)]
      ensures time > now ==> id in attached && attached == old(attached)[id := Timer(time, prio, attached[id].major)]
    {
      hide Shows, Pending, Hung, Counted, Alive, Flat, Proper, Tied;
      if time == 0 { return -22, false; }
      if time <= now { return 0, true; }
      NotBound(granularity, own, list, armed, attached, now, id);
      var major;
      own, list, uses, nextMajor, major :=
        Attach(granularity, own, list, uses, nextMajor, attached, armed, now, id, prio);
      PendingMore(attached, now, armed, id, Timer(time, prio, major));
      attached := attached[id := Timer(time, prio, major)];
      armed := armed + [Arm(id, time, prio)];
      return 0, false;
    }

    /** The next tick: everything armed for it goes into the queue, and nothing else happens. */
    method ProcessTick() returns (handed: seq<Action>)
      requires Valid()
      modifies this, queue`pending
      ensures Valid() && now == old(now) + 1 && attached == old(attached)
      ensures armed == WithoutTime(old(armed), now)
      ensures queue.Queue() == PutAll(old(queue.Queue()), ArmedFor(old(armed), now))
      ensures handed == PutAll([], ArmedFor(old(armed), now))
    {
      hide Shows, Pending, Hung, Counted, Alive, Flat, Proper, PutAll, ArmedFor, WithoutTime, Tied;
      now := now + 1;
      ghost var armed0 := armed;
      var batch, hit;
      own, list, batch, hit := Expire(granularity, own, list, now, armed, attached, uses, nextMajor);
      LastHit(attached, now, armed, hit);
      if hit { lastProcessed := now; }
      armed := WithoutTime(armed, now);
      PendingLess(attached, now, armed0);
      BatchOver(queue.Queue(), queue.pending, batch, ArmedFor(armed0, now));
      queue.ScheduleAll(batch);
      handed := Flat(batch);
    }

    /** Disarms a timer, or takes its action out of the queue if it has fired already. */
    method DeleteTimer(id: nat) returns (ghost k: int)
      requires Valid()
      modifies this, queue`pending
      ensures Valid() && now == old(now) && attached == old(attached) - {id} && armed == WithoutId(old(armed), id)
      ensures id !in old(attached) || old(attached)[id].time > now ==> queue.Queue() == old(queue.Queue())
      ensures id in old(attached) && old(attached)[id].time <= now ==>
        -1 <= k < |old(queue.Queue())|
        && (k == -1 ==>
              queue.Queue() == old(queue.Queue()) && forall i :: 0 <= i < |queue.Queue()| ==> queue.Queue()[i].id != id)
        && (k >= 0 ==>
              old(queue.Queue())[k].id == id && queue.Queue() == old(queue.Queue())[..k] + old(queue.Queue())[k + 1..])
    {
      hide Shows, Pending, Hung, Counted, Alive, Flat, Proper, WithoutId, Tied;
      k := -1;
      if id !in attached {
        NotArmed(attached, now, armed, id);
        return;
      }
      var timer := attached[id];
      ghost var v0, attached0 := View(own, list), attached;
      if timer.time > lastProcessed {
        own, list := Disarm(granularity, own, list, timer, id, armed, attached, now);
      } else {
        FiredShows(granularity, v0, attached, now, armed, id);
        k := queue.Deschedule(id);
      }
      PendingGone(attached, now, armed, id);
      HungCountedSame(granularity, v0, View(own, list), attached, now, uses, nextMajor);
      attached := attached - {id};
      armed := WithoutId(armed, id);
      list, uses := Release(granularity, own, list, uses, timer.major, nextMajor, attached0, id, armed, now);
    }
  }

  /** A bound record is that of an armed timer. */
  lemma {:induction false} BoundArmed(g: nat, own: Owns, list: seq<MajorTick>, armed: seq<Arm>, x: nat)
    requires Tied(own, list) && Shows(g, View(own, list), armed) && x in own && own[x].bound
    ensures exists a :: a in armed && a.id == x && a.time == own[x].time
  {
    hide Due, ListOk, Base, Slot, PutAll, ArmedFor, InGroup, GroupOk;
    var i, s :| InRow(list, i, s, x);
    Place(g, own, list, i, s, x);
    var t, row := own[x].time, list[i].rows[s];
    RowFacts(g, own, list, i, t);
    RowDue(g, own, list, i, t);
    var k :| 0 <= k < |row| && row[k] == x;
    GroupTick(RowView(own, row), k);
    HeadMember(own[x].actions, x);
    ArmedMembers(armed, t);
    var q := PutAll([], ArmedFor(armed, t));
    var j :| 0 <= j < |q| && q[j].id == x;
    InBatch(ArmedFor(armed, t), q[j]);
  }

  lemma {:induction false} InBatch(s: seq<Action>, a: Action)
    requires a in PutAll([], s)
    ensures a in s
  {
    hide PutAll;
    EmptySorted();
    PutAllSorted([], s);
    assert a in multiset(PutAll([], s));
  }

  lemma {:induction false} NotBound(g: nat, own: Owns, list: seq<MajorTick>, armed: seq<Arm>,
        attached: map<nat, Timer>, now: nat, id: nat)
    requires Tied(own, list) && Shows(g, View(own, list), armed) && Pending(attached, now, armed) && id !in attached
    ensures id in own ==> !own[id].bound
  {
    hide Shows, Tied;
    if id in own && own[id].bound {
      BoundArmed(g, own, list, armed, id);
    }
  }

  /** The record of a timer that stands in no row can change without being noticed. */
  lemma {:induction false} NewRecord(own: Owns, list: seq<MajorTick>, id: nat, o: Own)
    requires Tied(own, list) && (id in own ==> !own[id].bound) && !o.bound
    ensures View(own[id := o], list) == View(own, list) && Tied(own[id := o], list)
  {
    hide MajorView;
    forall i | 0 <= i < |list| ensures MajorView(own[id := o], list[i]) == MajorView(own, list[i]) {
      MajorFrame(own, list, i, id, o);
    }
  }

  lemma {:induction false} MajorFrame(own: Owns, list: seq<MajorTick>, i: int, id: nat, o: Own)
    requires Tied(own, list) && (id in own ==> !own[id].bound) && 0 <= i < |list|
    ensures MajorView(own[id := o], list[i]) == MajorView(own, list[i])
  {
    var own', rows := own[id := o], list[i].rows;
    forall s | 0 <= s < |rows| ensures RowView(own', rows[s]) == RowView(own, rows[s]) {
      forall k | 0 <= k < |rows[s]| ensures var x := rows[s][k]; x in own && x in own' && own'[x] == own[x] {
        assert InRow(list, i, s, rows[s][k]);
      }
      RowFrame(own, own', rows[s]);
    }
    assert RowViews(own', rows) == RowViews(own, rows);
  }

  /** Finds or makes the major tick for a timer of the future and hangs the timer on it. */
  method Attach(g: nat, own: Owns, list: seq<MajorTick>, uses: map<nat, nat>, next: nat,
                ghost attached: map<nat, Timer>, ghost armed: seq<Arm>, ghost now: nat, id: nat, prio: nat)
    returns (own': Owns, list': seq<MajorTick>, uses': map<nat, nat>, next': nat, major: nat)
    requires Tied(own, list) && Owned(own, attached) && Shows(g, View(own, list), armed)
    requires Hung(g, View(own, list), attached, now) && Counted(View(own, list), attached, uses, next)
    requires Alive(g, View(own, list), now)
    requires id !in attached && id in own && own[id].time > now && own[id].actions == [] && !own[id].bound
    ensures var t, v' := own[id].time, View(own', list');
      && Shows(g, v', armed + [Arm(id, t, prio)]) && Alive(g, v', now) && Tied(own', list')
      && var att := attached[id := Timer(t, prio, major)];
         Owned(own', att) && Hung(g, v', att, now) && Counted(v', att, uses', next')
  {
    hide Shows, Hung, Counted, Alive, ListOk, Due, Put, PutAll, ListedAs, Granular, Holders, Tied, Undisturbed, View;
    hide EmptyMajor;
    var time := own[id].time;
    ghost var v := View(own, list);
    ViewIds(own, list);
    ShowsOk(g, v, armed);
    FreshMajor(v, attached, uses, next);
    GranularPositive(g);
    var i, found := Locate(list, Base(g, time));
    var list1 := list;
    if found {
      major, uses', next' := list[i].id, uses[list[i].id := uses[list[i].id] + 1], next;
    } else {
      BaseTwice(g, time);
      list1 := NewMajor(g, own, list, i, next, Base(g, time));
      major, uses', next' := next, uses[next := 1], next + 1;
    }
    ghost var v1 := View(own, list1);
    ViewIds(own, list1);
    own', list' := HangTimer(g, own, list1, i, Action(id, prio));
    ghost var v', x := View(own', list'), Timer(time, prio, major);
    ChangedIs(g, own, list1, own', list', time, Put(Due(g, v1, time), Action(id, prio)));
    ArmedShows(g, v, v', armed, Arm(id, time, prio));
    ListMore(g, v, v1, v', i, found, now, time, next);
    HungMore(g, v, v', attached, now, id, x);
    CountedMore(v, v', attached, uses, next, id, x, found);
    OwnedMore(own, own', attached, id, x);
  }

  lemma {:induction false} ViewIds(own: Owns, list: seq<MajorTick>)
    ensures |View(own, list)| == |list|
    ensures forall j :: 0 <= j < |list| ==>
      View(own, list)[j].id == list[j].id && View(own, list)[j].time == list[j].time
  {
  }

  lemma {:induction false} ChangedIs(g: nat, own: Owns, list: seq<MajorTick>, own': Owns, list': seq<MajorTick>,
        t: nat, q: seq<Action>)
    requires g > 0 && Changed(g, own, list, own', list', t, q)
    ensures var v, v' := View(own, list), View(own', list');
      && ListOk(g, v') && SameMajors(v, v') && Tied(own', list')
      && Due(g, v', t) == q && forall u :: u != t ==> Due(g, v', u) == Due(g, v, u)
  {
  }

  lemma {:induction false} OwnedMore(own: Owns, own': Owns, attached: map<nat, Timer>, id: nat, x: Timer)
    requires Owned(own, attached) && Undisturbed(own, own', id) && id in own' && own'[id].time == x.time
    requires own'[id].bound || own'[id].actions == []
    ensures Owned(own', attached[id := x])
  {
  }

  /** Takes an unfired timer out of its tick. */
  method Disarm(g: nat, own: Owns, list: seq<MajorTick>, timer: Timer, id: nat,
                ghost armed: seq<Arm>, ghost attached: map<nat, Timer>, ghost now: nat)
    returns (own': Owns, list': seq<MajorTick>)
    requires Tied(own, list) && Owned(own, attached) && Shows(g, View(own, list), armed)
    requires Pending(attached, now, armed)
    requires Hung(g, View(own, list), attached, now) && id in attached && attached[id] == timer && timer.time > now
    ensures Shows(g, View(own', list'), WithoutId(armed, id)) && SameMajors(View(own, list), View(own', list'))
    ensures Tied(own', list') && Owned(own', attached - {id})
  {
    hide Shows, ListOk, Due, PutAll, Granular, Pending, ArmedFor, WithoutId, Base, Minus, Hung, Tied, Undisturbed, View;
    ghost var v := View(own, list);
    ViewIds(own, list);
    ShowsOk(g, v, armed);
    ArmedHere(g, v, armed, attached, now, id);
    DueOwned(g, own, v, armed, attached, now, timer.time);
    GranularPositive(g);
    var i :| 0 <= i < |list| && list[i].id == timer.major && list[i].time == Base(g, timer.time);
    own', list' := LeaveTick(g, own, list, i, id);
    ChangedIs(g, own, list, own', list', timer.time, Minus(Due(g, v, timer.time), id));
    ShowsGone(g, v, View(own', list'), armed, attached, now, id);
    OwnedLess(own, own', attached, id);
  }

  /** Whatever is due belongs to a timer with a record for that tick. */
  lemma {:induction false} DueOwned(g: nat, own: Owns, v: seq<Major>, armed: seq<Arm>, attached: map<nat, Timer>,
        now: nat, t: nat)
    requires Shows(g, v, armed) && Pending(attached, now, armed) && Owned(own, attached)
    ensures var q := Due(g, v, t); forall k :: 0 <= k < |q| ==> q[k].id in own && own[q[k].id].time == t
  {
    hide Due, PutAll, ArmedFor, ListOk;
    ArmedMembers(armed, t);
    var q := Due(g, v, t);
    forall k | 0 <= k < |q| ensures q[k].id in own && own[q[k].id].time == t {
      assert q[k] in q;
      InBatch(ArmedFor(armed, t), q[k]);
      var a :| a in armed && a.time == t && ActionOf(a) == q[k];
      assert IsArmed(attached, now, a);
    }
  }

  lemma {:induction false} OwnedLess(own: Owns, own': Owns, attached: map<nat, Timer>, id: nat)
    requires Owned(own, attached) && Undisturbed(own, own', id)
    ensures Owned(own', attached - {id})
  {
  }

  /** One timer less on a major tick; the last one frees it. */
  method Release(g: nat, ghost own: Owns, list: seq<MajorTick>, uses: map<nat, nat>, major: nat, ghost next: nat,
                 ghost attached: map<nat, Timer>, ghost id: nat, ghost armed: seq<Arm>, ghost now: nat)
    returns (list': seq<MajorTick>, uses': map<nat, nat>)
    requires Tied(own, list) && Shows(g, View(own, list), armed) && Pending(attached - {id}, now, armed)
    requires Hung(g, View(own, list), attached, now) && Counted(View(own, list), attached, uses, next)
    requires Alive(g, View(own, list), now) && id in attached && attached[id].major == major
    ensures var v' := View(own, list');
      && Tied(own, list') && Shows(g, v', armed) && Alive(g, v', now)
      && Hung(g, v', attached - {id}, now) && Counted(v', attached - {id}, uses', next)
  {
    hide Shows, Hung, Counted, Alive, Pending, ListOk, Holders, Tied, View, Due;
    ghost var v := View(own, list);
    ViewIds(own, list);
    CountedLast(v, attached, uses, next, id);
    HungGone(g, v, attached, now, id);
    list' := list;
    if uses[major] > 1 {
      uses' := uses[major := uses[major] - 1];
      return;
    }
    uses' := uses - {major};
    var i := 0;
    while i < |list| && list[i].id != major
      invariant 0 <= i <= |list| && forall j :: 0 <= j < i ==> list[j].id != major
    {
      i := i + 1;
    }
    ShowsOk(g, v, armed);
    if i < |list| {
      OneOfId(g, v, i);
      FreeMajor(g, v, i, attached - {id}, armed, now);
      list' := DropMajor(g, own, list, i);
      SameShows(g, v, View(own, list'), armed);
      WithoutMajor(g, v, i, attached - {id}, now, uses', next);
    } else {
      NoMajor(v, attached - {id}, uses', next, major);
    }
  }

  /** The tick `now`: its actions leave the list, and so does a major tick that covers no later tick. */
  method Expire(g: nat, own: Owns, list: seq<MajorTick>, now: nat,
                ghost armed: seq<Arm>, ghost attached: map<nat, Timer>, ghost uses: map<nat, nat>, ghost next: nat)
    returns (own': Owns, list': seq<MajorTick>, batch: seq<Group>, hit: bool)
    requires now > 0 && Tied(own, list) && Owned(own, attached) && Shows(g, View(own, list), armed)
    requires Hung(g, View(own, list), attached, now - 1) && Counted(View(own, list), attached, uses, next)
    requires Alive(g, View(own, list), now - 1) && Pending(attached, now - 1, armed)
    ensures Proper(batch) && Flat(batch) == PutAll([], ArmedFor(armed, now)) && (Flat(batch) != [] ==> hit)
    ensures var v' := View(own', list');
      && Tied(own', list') && Owned(own', attached) && Shows(g, v', WithoutTime(armed, now))
      && Hung(g, v', attached, now) && Counted(v', attached, uses, next) && Alive(g, v', now)
  {
    hide Shows, Hung, Counted, Alive, ListOk, Due, PutAll, ListedAs, Granular, Flat, Proper, Pending, ArmedFor;
    hide WithoutTime, Base, Tied, View, Owned, Shorter;
    ghost var v := View(own, list);
    ViewIds(own, list);
    ShowsOk(g, v, armed);
    GranularPositive(g);
    FirstCovers(g, v, now);
    if list != [] && list[0].time <= Base(g, now) {
      own', list', batch, hit := FireFirst(g, own, list, now, armed, attached);
    } else {
      NothingFlat();
      ShowsLess(g, v, v, armed, now);
      own', list', batch, hit := own, list, [], false;
      SameLength(g, v, now);
    }
    ShorterList(g, v, View(own', list'), now, attached, uses, next);
  }

  /** The list without its first major tick if that ends at `now`, else the same major ticks. */
  ghost predicate Shorter(g: nat, v: seq<Major>, v': seq<Major>, now: nat)
    requires g > 0
  {
    var d := |v| - |v'|;
    && 0 <= d <= 1 && (forall j :: 0 <= j < |v'| ==> v'[j].id == v[j + d].id && v'[j].time == v[j + d].time)
    && d == if v != [] && v[0].time <= Base(g, now) && now == v[0].time + g - 1 then 1 else 0
  }

  lemma {:induction false} SameLength(g: nat, v: seq<Major>, now: nat)
    requires g > 0 && (v == [] || v[0].time > Base(g, now))
    ensures Shorter(g, v, v, now)
  {
  }

  lemma {:induction false} ShorterList(g: nat, v: seq<Major>, v': seq<Major>, now: nat,
                                       attached: map<nat, Timer>, uses: map<nat, nat>, next: nat)
    requires Granular(g) && g > 0 && ListOk(g, v) && now > 0 && Alive(g, v, now - 1) && Shorter(g, v, v', now)
    requires Hung(g, v, attached, now - 1) && Counted(v, attached, uses, next)
    ensures Hung(g, v', attached, now) && Counted(v', attached, uses, next) && Alive(g, v', now)
  {
    hide Hung, Counted, Alive, ListOk, Granular;
    ListLess(g, v, v', now, attached, uses, next);
  }

  /** The first major tick covers `now`. */
  method FireFirst(g: nat, own: Owns, list: seq<MajorTick>, now: nat, ghost armed: seq<Arm>,
        ghost attached: map<nat, Timer>)
    returns (own': Owns, list': seq<MajorTick>, batch: seq<Group>, hit: bool)
    requires now > 0 && g > 0 && Tied(own, list) && Owned(own, attached) && Shows(g, View(own, list), armed)
    requires Pending(attached, now - 1, armed) && list != [] && list[0].time == Base(g, now)
    ensures Proper(batch) && Flat(batch) == PutAll([], ArmedFor(armed, now)) && (Flat(batch) != [] ==> hit)
    ensures Tied(own', list') && Owned(own', attached) && Shows(g, View(own', list'), WithoutTime(armed, now))
    ensures Shorter(g, View(own, list), View(own', list'), now)
  {
    hide Shows, ListOk, Due, PutAll, Granular, Flat, Proper, Pending, ArmedFor, WithoutTime, Base, Tied, View, Owned;
    ghost var v := View(own, list);
    ViewIds(own, list);
    ShowsOk(g, v, armed);
    own', list', batch, hit := TakeTick(g, own, list, now);
    ViewIds(own', list');
    ChangedIs(g, own, list, own', list', now, []);
    ShowsLess(g, v, View(own', list'), armed, now);
    OwnedSame(own, own', attached);
    list' := DropExpired(g, own', list', now, armed, attached);
  }

  lemma {:induction false} NothingFlat()
    ensures Flat([]) == [] && Proper([])
  {
  }

  lemma {:induction false} OwnedSame(own: Owns, own': Owns, attached: map<nat, Timer>)
    requires Owned(own, attached) && own'.Keys == own.Keys
    requires forall x :: x in own ==>
      own'[x].time == own[x].time && (own'[x].bound || own'[x].actions == [] || own'[x] == own[x])
    ensures Owned(own', attached)
  {
  }

  /** A major tick whose last tick is `now` leaves the list. */
  method DropExpired(g: nat, ghost own: Owns, list: seq<MajorTick>, now: nat, ghost armed: seq<Arm>,
        ghost attached: map<nat, Timer>)
    returns (r: seq<MajorTick>)
    requires now > 0 && list != [] && Tied(own, list) && Shows(g, View(own, list), WithoutTime(armed, now))
    requires Pending(attached, now - 1, armed)
    ensures Tied(own, r) && Shows(g, View(own, r), WithoutTime(armed, now))
    ensures View(own, r) == if now == list[0].time + g - 1 then View(own, list)[1..] else View(own, list)
  {
    hide Shows, ListOk, Due, PutAll, Granular, Pending, ArmedFor, WithoutTime, Base, Tied, View;
    r := list;
    if now == list[0].time + g - 1 {
      ghost var v := View(own, list);
      ViewIds(own, list);
      ShowsOk(g, v, WithoutTime(armed, now));
      LastOf(g, v, WithoutTime(armed, now), attached, armed, now);
      r := DropMajor(g, own, list, 0);
      assert v[..0] + v[1..] == v[1..];
      SameShows(g, v, View(own, r), WithoutTime(armed, now));
    }
  }

  /** The record of `x` stands for tick `t`. */
  ghost predicate StandsFor(own: Owns, x: nat, t: nat) { x in own && own[x].bound && own[x].time == t }

  /** In every state a caller can see, exactly one timer of each tick to come stands for it, with all its actions. */
  lemma {:induction false} OneStandsIn(timers: Timers, a: Arm)
    requires timers.Valid() && a in timers.armed
    ensures exists x ::
      StandsFor(timers.own, x, a.time) && Flat(timers.own[x].actions) == PutAll([], ArmedFor(timers.armed, a.time))
    ensures forall x, y :: StandsFor(timers.own, x, a.time) && StandsFor(timers.own, y, a.time) ==> x == y
  {
    hide Due, PutAll, ArmedFor, ListOk, Tied, Flat;
    var v, t := View(timers.own, timers.list), a.time;
    DueArmed(timers.granularity, v, timers.armed, a);
    OneBound(timers.granularity, timers.own, timers.list, t);
    var x :| x in timers.own && timers.own[x].bound && timers.own[x].time == t &&
      Flat(timers.own[x].actions) == Due(timers.granularity, v, t);
    assert StandsFor(timers.own, x, t);
  }

  lemma {:induction false} DueArmed(g: nat, v: seq<Major>, armed: seq<Arm>, a: Arm)
    requires Shows(g, v, armed) && a in armed
    ensures Due(g, v, a.time) != []
  {
    hide Due, PutAll, ArmedFor, ListOk;
    ArmedMembers(armed, a.time);
    EmptySorted();
    PutAllSorted([], ArmedFor(armed, a.time));
    var x := ActionOf(a);
    assert x in ArmedFor(armed, a.time);
    assert x in multiset(PutAll([], ArmedFor(armed, a.time)));
  }
}
