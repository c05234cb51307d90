/**
 What the list of major ticks, the attached timers and their use counters have to
 do with the armed timers.
 */
module TimerLedgers {
  import opened PrioLists
  import opened TimerLists
  import opened TimerSpecs
  import opened TimerMajors

  /** A timer that has been added and not deleted, fired or not. */
  datatype Timer = Timer(time: nat, prio: nat, major: nat)

  /** The timers attached to a major tick. */
  ghost function Holders(attached: map<nat, Timer>, m: nat): set<nat> {
    set id | id in attached && attached[id].major == m
  }

  ghost predicate ListedAs(list: seq<Major>, id: nat, time: nat) {
    exists i :: 0 <= i < |list| && list[i].id == id && list[i].time == time
  }

  /** The list shows exactly the armed timers, sorted tick by tick. */
  ghost predicate Shows(g: nat, list: seq<Major>, armed: seq<Arm>) {
    Granular(g) && ListOk(g, list) && forall t :: Due(g, list, t) == PutAll([], ArmedFor(armed, t))
  }

  ghost predicate IsArmed(attached: map<nat, Timer>, now: nat, a: Arm) {
    a.id in attached && attached[a.id].time == a.time && attached[a.id].prio == a.prio && a.time > now
  }

  /** Armed means attached and still to come. */
  ghost predicate Pending(attached: map<nat, Timer>, now: nat, armed: seq<Arm>) {
    UniqueArms(armed) && forall a :: a in armed <==> IsArmed(attached, now, a)
  }

  /** Every timer still to come hangs on the listed major tick that covers it. */
  ghost predicate Hung(g: nat, list: seq<Major>, attached: map<nat, Timer>, now: nat) {
    g > 0 && forall id :: id in attached && attached[id].time > now ==>
      ListedAs(list, attached[id].major, Base(g, attached[id].time))
  }

  /** A use counter counts the timers attached to its major tick. */
  ghost predicate Counted(list: seq<Major>, attached: map<nat, Timer>, uses: map<nat, nat>, next: nat) {
    && (forall m :: m in uses ==> m < next && uses[m] == |Holders(attached, m)| && uses[m] > 0)
    && (forall id :: id in attached ==> attached[id].major in uses)
    && (forall i :: 0 <= i < |list| ==> list[i].id in uses)
  }

  /** Every listed major tick still covers a tick to come. */
  ghost predicate Alive(g: nat, list: seq<Major>, now: nat) {
    forall i :: 0 <= i < |list| ==> list[i].time + g - 1 > now
  }

  lemma {:induction false} NotArmed(attached: map<nat, Timer>, now: nat, armed: seq<Arm>, id: nat)
    requires Pending(attached, now, armed) && (id in attached ==> attached[id].time <= now)
    ensures WithoutId(armed, id) == armed && (id !in attached ==> attached - {id} == attached)
  {
    forall k | 0 <= k < |armed| ensures armed[k].id != id { assert armed[k] in armed; }
    WithoutIdNone(armed, id);
  }

  lemma {:induction false} FiredShows(g: nat, list: seq<Major>, attached: map<nat, Timer>, now: nat, armed: seq<Arm>,
        id: nat)
    requires Shows(g, list, armed) && Pending(attached, now, armed) && id in attached && attached[id].time <= now
    ensures Shows(g, list, WithoutId(armed, id))
  {
    hide Shows;
    NotArmed(attached, now, armed, id);
  }

  lemma {:induction false} PendingGone(attached: map<nat, Timer>, now: nat, armed: seq<Arm>, id: nat)
    requires Pending(attached, now, armed)
    ensures Pending(attached - {id}, now, WithoutId(armed, id))
  {
    WithoutIdMembers(armed, id);
  }

  lemma {:induction false} HungCountedSame(g: nat, list: seq<Major>, r: seq<Major>, attached: map<nat, Timer>,
        now: nat, uses: map<nat, nat>, next: nat)
    requires Hung(g, list, attached, now) && Counted(list, attached, uses, next) && Alive(g, list, now)
    requires SameMajors(list, r)
    ensures Hung(g, r, attached, now) && Counted(r, attached, uses, next) && Alive(g, r, now)
  {
    hide Holders;
    forall m, b | ListedAs(list, m, b) ensures ListedAs(r, m, b) {
      var k :| 0 <= k < |list| && list[k].id == m && list[k].time == b;
      assert r[k].id == m && r[k].time == b;
    }
  }

  lemma {:induction false} ArmedHere(g: nat, list: seq<Major>, armed: seq<Arm>, attached: map<nat, Timer>, now: nat,
        id: nat)
    requires Shows(g, list, armed) && Pending(attached, now, armed) && Hung(g, list, attached, now) && id in attached
    requires attached[id].time > now
    ensures ListedAs(list, attached[id].major, Base(g, attached[id].time))
    ensures UniqueIds(Due(g, list, attached[id].time))
    ensures exists k :: 0 <= k < |Due(g, list, attached[id].time)| && Due(g, list, attached[id].time)[k].id == id
  {
    hide Due, PutAll, ArmedFor, ListOk;
    var t := attached[id].time;
    var a := Arm(id, t, attached[id].prio);
    assert IsArmed(attached, now, a);
    ArmedMembers(armed, t);
    BatchUnique(ArmedFor(armed, t));
    assert ActionOf(a) in Due(g, list, t);
  }

  lemma {:induction false} ShowsGone(g: nat, list: seq<Major>, r: seq<Major>, armed: seq<Arm>,
        attached: map<nat, Timer>, now: nat, id: nat)
    requires Shows(g, list, armed) && ListOk(g, r) && Pending(attached, now, armed) && id in attached
    requires attached[id].time > now
    requires Due(g, r, attached[id].time) == Minus(Due(g, list, attached[id].time), id)
    requires forall u :: u != attached[id].time ==> Due(g, r, u) == Due(g, list, u)
    ensures Shows(g, r, WithoutId(armed, id))
  {
    hide Due, PutAll, ArmedFor, ListOk, WithoutId, Minus;
    forall t ensures Due(g, r, t) == PutAll([], ArmedFor(WithoutId(armed, id), t)) {
      ArmedWithout(armed, id, t);
      Disarmed(ArmedFor(armed, t), id);
      if t != attached[id].time {
        ElsewhereNot(armed, attached, now, id, t);
        MinusNone(Due(g, list, t), id);
      }
    }
  }

  lemma {:induction false} ElsewhereNot(armed: seq<Arm>, attached: map<nat, Timer>, now: nat, id: nat, t: nat)
    requires Pending(attached, now, armed) && id in attached && attached[id].time != t
    ensures var q := PutAll([], ArmedFor(armed, t)); forall k :: 0 <= k < |q| ==> q[k].id != id
  {
    hide PutAll, ArmedFor;
    ArmedMembers(armed, t);
    BatchUnique(ArmedFor(armed, t));
    var q := PutAll([], ArmedFor(armed, t));
    forall k | 0 <= k < |q| ensures q[k].id != id {
      assert q[k] in q;
      var a :| a in armed && a.time == t && ActionOf(a) == q[k];
      assert IsArmed(attached, now, a);
    }
  }

  lemma {:induction false} OneOfId(g: nat, list: seq<Major>, i: int)
    requires ListOk(g, list) && 0 <= i < |list|
    ensures forall j :: 0 <= j < |list| && j != i ==> list[j].id != list[i].id
  {
    hide MajorOk;
  }

  lemma {:induction false} HungGone(g: nat, list: seq<Major>, attached: map<nat, Timer>, now: nat, id: nat)
    requires Hung(g, list, attached, now)
    ensures Hung(g, list, attached - {id}, now)
  {
    hide ListedAs;
  }

  /** The counters after one timer was detached, whether or not its major tick is still used. */
  ghost predicate CountedBut(list: seq<Major>, attached: map<nat, Timer>, uses: map<nat, nat>, next: nat, major: nat) {
    && (forall m :: m in uses ==> m < next && uses[m] == |Holders(attached, m)| && uses[m] > 0)
    && (forall id :: id in attached ==> attached[id].major in uses)
    && (forall i :: 0 <= i < |list| && list[i].id != major ==> list[i].id in uses) && major !in uses
  }

  lemma {:induction false} CountedLast(list: seq<Major>, attached: map<nat, Timer>, uses: map<nat, nat>, next: nat,
        id: nat)
    requires Counted(list, attached, uses, next) && id in attached
    ensures var m := attached[id].major;
      && m in uses
      && (uses[m] > 1 ==> Counted(list, attached - {id}, uses[m := uses[m] - 1], next))
      && (uses[m] <= 1 ==> Holders(attached - {id}, m) == {} && CountedBut(list, attached - {id}, uses - {m}, next, m))
  {
    hide Holders;
    var att, m := attached - {id}, attached[id].major;
    forall k ensures |Holders(att, k)| == |Holders(attached, k)| - (if k == m then 1 else 0) {
      HoldersLess(attached, id, k);
    }
    if uses[m] <= 1 {
      assert |Holders(att, m)| == 0;
      forall x | x in att ensures att[x].major in uses - {m} { InHolders(att, x); }
    }
  }

  lemma {:induction false} InHolders(attached: map<nat, Timer>, x: nat)
    requires x in attached
    ensures x in Holders(attached, attached[x].major)
  {
  }

  lemma {:induction false} HoldersLess(attached: map<nat, Timer>, id: nat, m: nat)
    requires id in attached
    ensures |Holders(attached - {id}, m)| == |Holders(attached, m)| - if m == attached[id].major then 1 else 0
  {
    if m == attached[id].major {
      assert Holders(attached, m) == Holders(attached - {id}, m) + {id};
    } else {
      assert Holders(attached, m) == Holders(attached - {id}, m);
    }
  }

  /** Nothing is due on a major tick that no timer is attached to. */
  lemma {:induction false} FreeMajor(g: nat, list: seq<Major>, i: int, attached: map<nat, Timer>, armed: seq<Arm>,
        now: nat)
    requires Shows(g, list, armed) && Pending(attached, now, armed) && Hung(g, list, attached, now) && 0 <= i < |list|
    requires Holders(attached, list[i].id) == {}
    ensures forall u :: Base(g, u) == list[i].time ==> Due(g, list, u) == []
  {
    hide Due, MajorOk;
    forall u: nat | Base(g, u) == list[i].time ensures Due(g, list, u) == [] {
      forall a | a in armed ensures a.time != u {
        assert IsArmed(attached, now, a);
        InHolders(attached, a.id);
      }
      NoneArmed(armed, u);
    }
  }

  lemma {:induction false} WithoutMajor(g: nat, list: seq<Major>, i: int, attached: map<nat, Timer>, now: nat,
        uses: map<nat, nat>, next: nat)
    requires 0 <= i < |list| && Hung(g, list, attached, now) && Alive(g, list, now)
    requires CountedBut(list, attached, uses, next, list[i].id)
    requires Holders(attached, list[i].id) == {} && forall j :: 0 <= j < |list| && j != i ==> list[j].id != list[i].id
    ensures var r := list[..i] + list[i + 1..];
      Hung(g, r, attached, now) && Alive(g, r, now) && Counted(r, attached, uses, next)
  {
    var r := list[..i] + list[i + 1..];
    assert forall a :: 0 <= a < |r| ==> r[a] == (if a < i then list[a] else list[a + 1]);
    forall id | id in attached && attached[id].time > now
      ensures ListedAs(r, attached[id].major, Base(g, attached[id].time))
    {
      var k :| 0 <= k < |list| && list[k].id == attached[id].major && list[k].time == Base(g, attached[id].time);
      InHolders(attached, id);
      assert k != i;
      assert r[if k < i then k else k - 1] == list[k];
    }
  }

  lemma {:induction false} NoMajor(list: seq<Major>, attached: map<nat, Timer>, uses: map<nat, nat>, next: nat,
        major: nat)
    requires CountedBut(list, attached, uses, next, major) && forall j :: 0 <= j < |list| ==> list[j].id != major
    ensures Counted(list, attached, uses, next)
  {
    hide Holders;
  }

  /** The state of the list right before the tick `now` is processed. */
  ghost predicate Coming(g: nat, list: seq<Major>, now: nat) {
    now > 0 && Alive(g, list, now - 1)
  }

  /** Only the first major tick can cover `now`. */
  lemma {:induction false} FirstCovers(g: nat, list: seq<Major>, now: nat)
    requires Granular(g) && ListOk(g, list) && Coming(g, list, now)
    ensures list != [] && list[0].time <= Base(g, now) ==> list[0].time == Base(g, now)
    ensures list == [] || list[0].time > Base(g, now) ==> Due(g, list, now) == [] && Alive(g, list, now)
  {
    if list != [] && list[0].time <= Base(g, now) {
      assert MajorOk(g, list[0]);
      BaseUnique(g, list[0].time, now);
    } else {
      assert forall i :: 0 < i < |list| ==> list[0].time < list[i].time;
      DueNone(g, list, now);
      SlotRange(g, now);
    }
  }

  lemma {:induction false} ShowsLess(g: nat, list: seq<Major>, r: seq<Major>, armed: seq<Arm>, now: nat)
    requires Shows(g, list, armed) && ListOk(g, r) && Due(g, r, now) == []
    requires forall u :: u != now ==> Due(g, r, u) == Due(g, list, u)
    ensures Shows(g, r, WithoutTime(armed, now))
  {
    hide Due, ArmedFor, WithoutTime, ListOk;
    forall t ensures Due(g, r, t) == PutAll([], ArmedFor(WithoutTime(armed, now), t)) { ArmedAfter(armed, now, t); }
  }

  lemma {:induction false} SameShows(g: nat, list: seq<Major>, r: seq<Major>, armed: seq<Arm>)
    requires Shows(g, list, armed) && ListOk(g, r) && forall u :: Due(g, r, u) == Due(g, list, u)
    ensures Shows(g, r, armed)
  {
    hide Due, ArmedFor, ListOk;
  }

  /** At the last tick it covers, a major tick has nothing left to fire. */
  lemma {:induction false} LastOf(g: nat, list: seq<Major>, armed': seq<Arm>, attached: map<nat, Timer>,
        armed: seq<Arm>, now: nat)
    requires Shows(g, list, armed') && list != [] && now == list[0].time + g - 1 && now > 0
    requires Pending(attached, now - 1, armed) && armed' == WithoutTime(armed, now)
    ensures forall u :: Base(g, u) == list[0].time ==> Due(g, list, u) == []
  {
    hide Due, ListOk;
    WithoutTimeMembers(armed, now);
    forall u: nat | Base(g, u) == list[0].time ensures Due(g, list, u) == [] {
      SlotRange(g, u);
      assert u <= now;
      forall a | a in armed' ensures a.time != u { assert IsArmed(attached, now - 1, a); }
      NoneArmed(armed', u);
    }
  }

  /** The list keeps every major tick that a timer still to come hangs on. */
  lemma {:induction false} ListLess(g: nat, list: seq<Major>, r: seq<Major>, now: nat, attached: map<nat, Timer>,
        uses: map<nat, nat>, next: nat)
    requires Granular(g) && ListOk(g, list) && now > 0 && Alive(g, list, now - 1)
    requires Hung(g, list, attached, now - 1) && Counted(list, attached, uses, next)
    requires var d := |list| - |r|;
      0 <= d <= 1 && (forall j :: 0 <= j < |r| ==> r[j].id == list[j + d].id && r[j].time == list[j + d].time)
    requires var d := |list| - |r|;
      if list != [] && list[0].time <= Base(g, now) then d == (if now == list[0].time + g - 1 then 1 else 0) else d == 0
    ensures Hung(g, r, attached, now) && Counted(r, attached, uses, next) && Alive(g, r, now)
  {
    hide Counted, ListOk;
    var d := |list| - |r|;
    StaysAlive(g, list, r, now);
    CountedLess(list, r, d, attached, uses, next);
    forall id | id in attached && attached[id].time > now
      ensures ListedAs(r, attached[id].major, Base(g, attached[id].time))
    {
      var k :| 0 <= k < |list| && list[k].id == attached[id].major && list[k].time == Base(g, attached[id].time);
      SlotRange(g, attached[id].time);
      assert d == 1 ==> k != 0;
      assert r[k - d].id == list[k].id && r[k - d].time == list[k].time;
    }
  }

  lemma {:induction false} CountedLess(list: seq<Major>, r: seq<Major>, d: int, attached: map<nat, Timer>,
        uses: map<nat, nat>, next: nat)
    requires Counted(list, attached, uses, next) && 0 <= d && |r| + d == |list|
    requires forall j :: 0 <= j < |r| ==> r[j].id == list[j + d].id
    ensures Counted(r, attached, uses, next)
  {
    hide Holders;
  }

  lemma {:induction false} StaysAlive(g: nat, list: seq<Major>, r: seq<Major>, now: nat)
    requires Granular(g) && ListOk(g, list) && now > 0 && Alive(g, list, now - 1)
    requires var d := |list| - |r|; 0 <= d <= 1 && (forall j :: 0 <= j < |r| ==> r[j].time == list[j + d].time)
    requires var d := |list| - |r|;
      if list != [] && list[0].time <= Base(g, now) then d == (if now == list[0].time + g - 1 then 1 else 0) else d == 0
    ensures Alive(g, r, now)
  {
    hide MajorOk;
    SlotRange(g, now);
    var d := |list| - |r|;
    forall j | 0 <= j < |r| ensures r[j].time + g - 1 > now {
      assert j + d > 0 ==> list[0].time < list[j + d].time;
    }
  }

  lemma {:induction false} LastHit(attached: map<nat, Timer>, now: nat, armed: seq<Arm>, hit: bool)
    requires now > 0 && Pending(attached, now - 1, armed) && (PutAll([], ArmedFor(armed, now)) != [] ==> hit)
    ensures (exists id :: id in attached && attached[id].time == now) ==> hit
  {
    hide PutAll, ArmedFor;
    if id :| id in attached && attached[id].time == now {
      var a := Arm(id, attached[id].time, attached[id].prio);
      assert IsArmed(attached, now - 1, a);
      ArmedMembers(armed, now);
      assert ActionOf(a) in ArmedFor(armed, now);
      EmptySorted();
      PutAllSorted([], ArmedFor(armed, now));
      assert ActionOf(a) in multiset(PutAll([], ArmedFor(armed, now)));
    }
  }

  lemma {:induction false} PendingLess(attached: map<nat, Timer>, now: nat, armed: seq<Arm>)
    requires now > 0 && Pending(attached, now - 1, armed)
    ensures Pending(attached, now, WithoutTime(armed, now))
  {
    WithoutTimeMembers(armed, now);
  }

  lemma {:induction false} BatchOver(q: seq<Action>, pending: seq<Group>, batch: seq<Group>, s: seq<Action>)
    requires Proper(pending) && q == Flat(pending) && Flat(batch) == PutAll([], s)
    ensures PutAll(q, Flat(batch)) == PutAll(q, s)
  {
    hide PutAll, Flat, Proper;
    FlatSorted(pending);
    HandOver(q, s);
  }

  lemma {:induction false} GranularPositive(g: nat)
    requires Granular(g)
    ensures g > 0
  {
  }

  lemma {:induction false} ShowsOk(g: nat, list: seq<Major>, armed: seq<Arm>)
    requires Shows(g, list, armed)
    ensures Granular(g) && ListOk(g, list) && forall t :: Due(g, list, t) == PutAll([], ArmedFor(armed, t))
  {
  }

  lemma {:induction false} FreshMajor(list: seq<Major>, attached: map<nat, Timer>, uses: map<nat, nat>, next: nat)
    requires Counted(list, attached, uses, next)
    ensures next !in uses && forall j :: 0 <= j < |list| ==> list[j].id != next && list[j].id in uses
  {
  }

  lemma {:induction false} ArmedShows(g: nat, list: seq<Major>, list': seq<Major>, armed: seq<Arm>, a: Arm)
    requires Shows(g, list, armed) && ListOk(g, list')
    requires Due(g, list', a.time) == Put(Due(g, list, a.time), ActionOf(a))
    requires forall u :: u != a.time ==> Due(g, list', u) == Due(g, list, u)
    ensures Shows(g, list', armed + [a])
  {
    hide Due, PutAll, ArmedFor, Put, ListOk;
    forall t ensures Due(g, list', t) == PutAll([], ArmedFor(armed + [a], t)) { ArmedMore(armed, a, t); }
  }

  lemma {:induction false} PendingMore(attached: map<nat, Timer>, now: nat, armed: seq<Arm>, id: nat, x: Timer)
    requires Pending(attached, now, armed) && id !in attached && x.time > now
    ensures Pending(attached[id := x], now, armed + [Arm(id, x.time, x.prio)])
  {
    var a, p := Arm(id, x.time, x.prio), armed + [Arm(id, x.time, x.prio)];
    forall k | 0 <= k < |armed| ensures armed[k].id != id { assert armed[k] in armed; }
    forall b ensures b in p <==> IsArmed(attached[id := x], now, b) {
      assert b in p <==> b in armed || b == a;
    }
  }

  /** Where the major ticks are after arming: the old ones, and the one for the timer. */
  lemma {:induction false} ListMore(g: nat, list0: seq<Major>, list1: seq<Major>, list: seq<Major>, i: int,
        found: bool, now: nat, time: nat, next: nat)
    requires g > 0 && Alive(g, list0, now) && time > now && 0 <= i < |list1| && |list| == |list1|
    requires list1[i].time == Base(g, time)
    requires forall j :: 0 <= j < |list| ==> list[j].id == list1[j].id && list[j].time == list1[j].time
    requires if found then list1 == list0
      else i <= |list0| && list1 == list0[..i] + [EmptyMajor(g, next, Base(g, time))] + list0[i..]
    ensures Alive(g, list, now) && ListedAs(list, list1[i].id, Base(g, time))
    ensures forall m, b :: ListedAs(list0, m, b) ==> ListedAs(list, m, b)
    ensures forall j :: 0 <= j < |list| ==>
      list[j].id == list1[i].id || exists k :: 0 <= k < |list0| && list0[k].id == list[j].id
  {
    assert time < Base(g, time) + g;
    assert list[i].id == list1[i].id && list[i].time == Base(g, time);
    forall m, b | ListedAs(list0, m, b) ensures ListedAs(list, m, b) {
      var k :| 0 <= k < |list0| && list0[k].id == m && list0[k].time == b;
      var k' := if found || k < i then k else k + 1;
      assert list1[k'] == list0[k];
      assert list[k'].id == m && list[k'].time == b;
    }
    forall j | 0 <= j < |list|
      ensures list[j].time + g - 1 > now
      ensures list[j].id == list1[i].id || exists k :: 0 <= k < |list0| && list0[k].id == list[j].id
    {
      if found || j != i {
        var k := if found || j < i then j else j - 1;
        assert list1[j] == list0[k];
      }
    }
  }

  lemma {:induction false} HungMore(g: nat, list: seq<Major>, list': seq<Major>, attached: map<nat, Timer>, now: nat,
        id: nat, x: Timer)
    requires Hung(g, list, attached, now) && id !in attached && ListedAs(list', x.major, Base(g, x.time))
    requires forall m, b :: ListedAs(list, m, b) ==> ListedAs(list', m, b)
    ensures Hung(g, list', attached[id := x], now)
  {
    hide ListedAs;
  }

  lemma {:induction false} CountedMore(list: seq<Major>, list': seq<Major>, attached: map<nat, Timer>,
        uses: map<nat, nat>, next: nat, id: nat, x: Timer, found: bool)
    requires Counted(list, attached, uses, next) && id !in attached
    requires if found then x.major in uses else x.major == next
    requires forall j :: 0 <= j < |list'| ==>
      list'[j].id == x.major || exists k :: 0 <= k < |list| && list[k].id == list'[j].id
    ensures Counted(list', attached[id := x], uses[x.major := if found then uses[x.major] + 1 else 1],
      if found then next else next + 1)
  {
    hide Holders;
    var uses', att := uses[x.major := if found then uses[x.major] + 1 else 1], attached[id := x];
    forall m | m in uses' ensures uses'[m] == |Holders(att, m)| && uses'[m] > 0 {
      HoldersMore(attached, id, x, m);
      if m == x.major && !found { NoHolders(attached, uses, m); }
    }
  }

  lemma {:induction false} HoldersMore(attached: map<nat, Timer>, id: nat, x: Timer, m: nat)
    requires id !in attached
    ensures |Holders(attached[id := x], m)| == |Holders(attached, m)| + if m == x.major then 1 else 0
  {
    if m == x.major {
      assert Holders(attached[id := x], m) == Holders(attached, m) + {id};
    } else {
      assert Holders(attached[id := x], m) == Holders(attached, m);
    }
  }

  lemma {:induction false} NoHolders(attached: map<nat, Timer>, uses: map<nat, nat>, m: nat)
    requires m !in uses && forall id :: id in attached ==> attached[id].major in uses
    ensures Holders(attached, m) == {}
  {
  }
}
