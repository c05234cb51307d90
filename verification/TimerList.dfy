/**
 The list of major timer ticks: each covers a span of ticks, keeps its timers in
 groups of minor ticks, and every minor tick has a two-level list of actions
 (kernel/generic/timer.c, include/mstring/timer.h; list-based build).
 */
module TimerLists {
  import opened PrioLists
  import opened PrioOps

  const MINOR_TICK_GROUP_SIZE := 16

  /** `rep` is the timer whose own record stands for the tick. */
  datatype Tick = Tick(rep: nat, time: nat, actions: seq<Group>)

  datatype Major = Major(id: nat, time: nat, minors: seq<seq<Tick>>)

  /** The major tick that covers tick `t`, and the group of minor ticks in it. */
  function Base(g: nat, t: nat): nat
    requires g > 0
  {
    t - t % g
  }

  function Slot(g: nat, t: nat): nat
    requires g > 0
  {
    (t % g) / MINOR_TICK_GROUP_SIZE
  }

  ghost predicate Granular(g: nat) { g > 0 && g % MINOR_TICK_GROUP_SIZE == 0 }

  lemma {:induction false} SlotRange(g: nat, t: nat)
    requires Granular(g)
    ensures Slot(g, t) < g / MINOR_TICK_GROUP_SIZE && Base(g, t) <= t < Base(g, t) + g
  {
    assert t % g < g;
  }

  lemma {:induction false} MulStep(g: nat, a: nat, b: nat)
    ensures a < b ==> g * a + g <= g * b
  {
    if a < b {
      assert g * b == g * (b - 1) + g;
      MulStep(g, a, b - 1);
    }
  }

  lemma {:induction false} DivUnique(g: nat, q: nat, r: nat, x: nat)
    requires g > 0 && x == g * q + r && r < g
    ensures x / g == q && x % g == r
  {
    var k := x / g;
    assert x == g * k + x % g;
    MulStep(g, k, q);
    MulStep(g, q, k);
  }

  /** The only multiple of the granularity that covers a tick is its base. */
  lemma {:induction false} BaseUnique(g: nat, b: nat, t: nat)
    requires g > 0 && Base(g, b) == b && b <= t < b + g
    ensures Base(g, t) == b
  {
    assert b == g * (b / g);
    DivUnique(g, b / g, t - b, t);
  }

  lemma {:induction false} BaseTwice(g: nat, t: nat)
    requires g > 0
    ensures Base(g, Base(g, t)) == Base(g, t)
  {
    assert t == g * (t / g) + t % g;
    DivUnique(g, t / g, 0, Base(g, t));
  }

  /** The actions due at tick `t`. */
  ghost function InGroup(ts: seq<Tick>, t: nat): seq<Action> {
    if ts == [] then [] else if ts[0].time == t then Flat(ts[0].actions) else InGroup(ts[1..], t)
  }

  ghost function Due(g: nat, list: seq<Major>, t: nat): seq<Action>
    requires g > 0
  {
    if list == [] then []
    else if list[0].time == Base(g, t) && Slot(g, t) < |list[0].minors| then InGroup(list[0].minors[Slot(g, t)], t)
    else Due(g, list[1..], t)
  }

  ghost predicate TickOk(t: Tick) {
    Proper(t.actions) && IsHead(t.actions, t.rep)
  }

  ghost predicate GroupOk(ts: seq<Tick>) {
    (forall i :: 0 <= i < |ts| ==> TickOk(ts[i])) && (forall i, j :: 0 <= i < j < |ts| ==> ts[i].time < ts[j].time)
  }

  ghost predicate MajorOk(g: nat, m: Major) {
    && g > 0 && Base(g, m.time) == m.time && |m.minors| == g / MINOR_TICK_GROUP_SIZE
    && (forall s :: 0 <= s < |m.minors| ==> GroupOk(m.minors[s]))
    && (forall s, i :: 0 <= s < |m.minors| && 0 <= i < |m.minors[s]| ==>
      Base(g, m.minors[s][i].time) == m.time && Slot(g, m.minors[s][i].time) == s)
  }

  ghost predicate ListOk(g: nat, list: seq<Major>) {
    && (forall i :: 0 <= i < |list| ==> MajorOk(g, list[i]))
    && (forall i, j :: 0 <= i < j < |list| ==> list[i].time < list[j].time && list[i].id != list[j].id)
  }

  /** What is due at `t` stands in the only place where it can. */
  lemma {:induction false} DueAt(g: nat, list: seq<Major>, i: int, t: nat)
    requires Granular(g) && ListOk(g, list) && 0 <= i < |list| && list[i].time == Base(g, t)
    ensures Slot(g, t) < |list[i].minors| && Due(g, list, t) == InGroup(list[i].minors[Slot(g, t)], t)
  {
    SlotRange(g, t);
    if i > 0 {
      assert list[0].time < list[i].time;
      DueAt(g, list[1..], i - 1, t);
    }
  }

  lemma {:induction false} DueNone(g: nat, list: seq<Major>, t: nat)
    requires g > 0 && forall i :: 0 <= i < |list| ==> list[i].time != Base(g, t)
    ensures Due(g, list, t) == []
  {
    if list != [] { DueNone(g, list[1..], t); }
  }

  /** A major tick matters only for the ticks it covers. */
  lemma {:induction false} DueSkip(g: nat, a: seq<Major>, m: Major, b: seq<Major>, t: nat)
    requires g > 0 && m.time != Base(g, t)
    ensures Due(g, a + [m] + b, t) == Due(g, a + b, t)
  {
    if a == [] {
      assert (a + [m] + b)[0] == m && (a + [m] + b)[1..] == b && a + b == b;
    } else {
      DueSkip(g, a[1..], m, b, t);
      assert (a + [m] + b)[0] == a[0] && (a + [m] + b)[1..] == a[1..] + [m] + b;
      assert (a + b)[0] == a[0] && (a + b)[1..] == a[1..] + b;
    }
  }

  lemma {:induction false} InGroupAt(ts: seq<Tick>, i: int)
    requires GroupOk(ts) && 0 <= i < |ts|
    ensures InGroup(ts, ts[i].time) == Flat(ts[i].actions)
  {
    if i > 0 {
      assert ts[0].time < ts[i].time;
      InGroupAt(ts[1..], i - 1);
    }
  }

  lemma {:induction false} InGroupNone(ts: seq<Tick>, t: nat)
    requires forall i :: 0 <= i < |ts| ==> ts[i].time != t
    ensures InGroup(ts, t) == []
  {
    if ts != [] { InGroupNone(ts[1..], t); }
  }

  lemma {:induction false} InGroupSkip(a: seq<Tick>, x: Tick, b: seq<Tick>, t: nat)
    requires x.time != t
    ensures InGroup(a + [x] + b, t) == InGroup(a + b, t)
  {
    if a == [] {
      assert (a + [x] + b)[0] == x && (a + [x] + b)[1..] == b && a + b == b;
    } else {
      InGroupSkip(a[1..], x, b, t);
      assert (a + [x] + b)[0] == a[0] && (a + [x] + b)[1..] == a[1..] + [x] + b;
      assert (a + b)[0] == a[0] && (a + b)[1..] == a[1..] + b;
    }
  }

  /** Only what is due at `t` has changed, to `q`, and every tick of `ts'` is at `t` or one of `ts`. */
  ghost predicate GroupNow(ts: seq<Tick>, ts': seq<Tick>, t: nat, q: seq<Action>) {
    && GroupOk(ts') && InGroup(ts', t) == q
    && (forall u :: u != t ==> InGroup(ts', u) == InGroup(ts, u))
    && (forall i :: 0 <= i < |ts'| ==> ts'[i].time == t || exists j :: 0 <= j < |ts| && ts'[i].time == ts[j].time)
  }

  /** A new tick between earlier and later ones. */
  lemma {:induction false} TickBetween(ts: seq<Tick>, i: int, x: Tick)
    requires GroupOk(ts) && 0 <= i <= |ts| && TickOk(x)
    requires (forall j :: 0 <= j < i ==> ts[j].time < x.time) && (i < |ts| ==> ts[i].time > x.time)
    ensures GroupNow(ts, ts[..i] + [x] + ts[i..], x.time, Flat(x.actions)) && InGroup(ts, x.time) == []
  {
    hide InGroup, TickOk;
    var r := ts[..i] + [x] + ts[i..];
    OrderBetween(ts, i, x);
    assert ts == ts[..i] + ts[i..];
    forall u | u != x.time ensures InGroup(r, u) == InGroup(ts, u) { InGroupSkip(ts[..i], x, ts[i..], u); }
    InGroupAt(r, i);
    InGroupNone(ts, x.time);
  }

  lemma {:induction false} OrderBetween(ts: seq<Tick>, i: int, x: Tick)
    requires GroupOk(ts) && 0 <= i <= |ts| && TickOk(x)
    requires (forall j :: 0 <= j < i ==> ts[j].time < x.time) && (i < |ts| ==> ts[i].time > x.time)
    ensures var r := ts[..i] + [x] + ts[i..];
      && GroupOk(r) && r[i] == x && (forall j :: 0 <= j < |ts| ==> ts[j].time != x.time)
      && (forall a :: 0 <= a < |r| ==> r[a].time == x.time || exists j :: 0 <= j < |ts| && r[a].time == ts[j].time)
  {
    hide TickOk;
    var r := ts[..i] + [x] + ts[i..];
    assert forall a :: 0 <= a < |r| ==> r[a] == (if a < i then ts[a] else if a == i then x else ts[a - 1]);
  }

  lemma {:induction false} TickChanged(ts: seq<Tick>, i: int, x: Tick)
    requires GroupOk(ts) && 0 <= i < |ts| && TickOk(x) && x.time == ts[i].time
    ensures GroupNow(ts, ts[i := x], x.time, Flat(x.actions)) && InGroup(ts, x.time) == Flat(ts[i].actions)
  {
    hide InGroup, TickOk;
    var r := ts[i := x];
    assert r == ts[..i] + [x] + ts[i + 1..] && ts == ts[..i] + [ts[i]] + ts[i + 1..];
    forall u | u != x.time ensures InGroup(r, u) == InGroup(ts, u) {
      InGroupSkip(ts[..i], x, ts[i + 1..], u);
      InGroupSkip(ts[..i], ts[i], ts[i + 1..], u);
    }
    InGroupAt(r, i);
    InGroupAt(ts, i);
  }

  lemma {:induction false} TickGone(ts: seq<Tick>, i: int)
    requires GroupOk(ts) && 0 <= i < |ts|
    ensures GroupNow(ts, ts[..i] + ts[i + 1..], ts[i].time, []) && InGroup(ts, ts[i].time) == Flat(ts[i].actions)
  {
    hide InGroup, TickOk;
    var r := ts[..i] + ts[i + 1..];
    assert forall a :: 0 <= a < |r| ==> r[a] == (if a < i then ts[a] else ts[a + 1]);
    assert ts == ts[..i] + [ts[i]] + ts[i + 1..];
    forall u | u != ts[i].time ensures InGroup(r, u) == InGroup(ts, u) { InGroupSkip(ts[..i], ts[i], ts[i + 1..], u); }
    InGroupNone(r, ts[i].time);
    InGroupAt(ts, i);
  }
}
