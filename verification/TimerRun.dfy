/**
 Whole runs of the timers and the queue of deferred actions: what is handed over
 and executed, when, and how often.
 */
module TimerRuns {
  import opened PrioLists
  import opened PrioOps
  import opened TimerLists
  import opened TimerSpecs
  import opened QueueIds
  import opened TimerRows
  import opened TimerMajors
  import opened TimerLedgers
  import opened TimerWheels

  /** Setting a timer to a new time, deleting it, the clock, and a task that executes deferred actions. */
  datatype Call = Set(id: nat, time: nat, prio: nat) | Delete(id: nat) | Clock | Execute(priority: nat)

  datatype Event =
    | HandedOver(tick: nat, action: Action)
    | Executed(tick: nat, action: Action)
    | AtOnce(tick: nat, action: Action)

  /** The armed timers, the clock, and the queue of what has fired and not been executed. */
  datatype Stage = Stage(armed: seq<Arm>, now: nat, q: seq<Action>)

  const START := Stage([], 0, [])

  function After(s: Stage, c: Call, limit: nat): Stage {
    match c
    case Set(id, time, prio) =>
      if time <= s.now then s else Stage(WithoutId(s.armed, id) + [Arm(id, time, prio)], s.now, Minus(s.q, id))
    case Delete(id) => Stage(WithoutId(s.armed, id), s.now, Minus(s.q, id))
    case Clock =>
      Stage(WithoutTime(s.armed, s.now + 1), s.now + 1, PutAll(s.q, ArmedFor(s.armed, s.now + 1)))
    case Execute(priority) => s.(q := s.q[Ready(s.q, priority, limit)..])
  }

  function Final(s: Stage, calls: seq<Call>, limit: nat): Stage
    decreases |calls|
  {
    if calls == [] then s else Final(After(s, calls[0], limit), calls[1..], limit)
  }

  function Stamped(over: bool, t: nat, q: seq<Action>): (r: seq<Event>)
    ensures |r| == |q| && forall k :: 0 <= k < |q| ==> r[k] == if over then HandedOver(t, q[k]) else Executed(t, q[k])
  {
    if q == [] then [] else [if over then HandedOver(t, q[0]) else Executed(t, q[0])] + Stamped(over, t, q[1..])
  }

  /** What one call does that can be seen. */
  function EventsOf(s: Stage, c: Call, limit: nat): seq<Event> {
    match c
    case Set(id, time, prio) => if time <= s.now then [AtOnce(s.now, Action(id, prio))] else []
    case Delete(_) => []
    case Clock => Stamped(true, s.now + 1, PutAll([], ArmedFor(s.armed, s.now + 1)))
    case Execute(priority) => Stamped(false, s.now, s.q[..Ready(s.q, priority, limit)])
  }

  function Log(s: Stage, calls: seq<Call>, limit: nat): seq<Event>
    decreases |calls|
  {
    if calls == [] then [] else EventsOf(s, calls[0], limit) + Log(After(s, calls[0], limit), calls[1..], limit)
  }

  function OfId(log: seq<Event>, id: nat): seq<Event> {
    if log == [] then [] else (if log[0].action.id == id then [log[0]] else []) + OfId(log[1..], id)
  }

  function Ticks(calls: seq<Call>): nat {
    if calls == [] then 0 else (if calls[0].Clock? then 1 else 0) + Ticks(calls[1..])
  }

  /** The call neither sets nor deletes the timer. */
  ghost predicate Leaves(c: Call, id: nat) { (c.Set? || c.Delete?) ==> c.id != id }

  ghost predicate IsArmedIn(s: Stage, id: nat) { exists a :: a in s.armed && a.id == id }

  /** Every timer is armed once, queued once, or neither; what is armed is still to come. */
  ghost predicate Consistent(s: Stage) {
    && UniqueArms(s.armed) && (forall a :: a in s.armed ==> a.time > s.now && a.id !in Ids(s.q))
    && UniqueIds(s.q) && Sorted(s.q)
  }

  lemma {:induction false} ClockIs(s: Stage, calls: seq<Call>, limit: nat)
    ensures Final(s, calls, limit).now == s.now + Ticks(calls)
    decreases |calls|
  {
    if calls != [] { ClockIs(After(s, calls[0], limit), calls[1..], limit); }
  }

  lemma {:induction false} OneMore(s: Stage, calls: seq<Call>, c: Call, limit: nat)
    ensures var f := Final(s, calls, limit);
      && Log(s, calls + [c], limit) == Log(s, calls, limit) + EventsOf(f, c, limit)
      && Final(s, calls + [c], limit) == After(f, c, limit)
    decreases |calls|
  {
    hide EventsOf, After;
    if calls == [] {
      assert [] + [c] == [c] && [c][0] == c && [c][1..] == [];
      assert Log(s, [c], limit) == EventsOf(s, c, limit) + [];
    } else {
      assert (calls + [c])[0] == calls[0] && (calls + [c])[1..] == calls[1..] + [c];
      OneMore(After(s, calls[0], limit), calls[1..], c, limit);
    }
  }

  /**
   Setting a timer in the course of any run: to a time the clock has reached, its action is executed at
   once and all else stays; to a later one, it is armed for that tick and no longer waits.
   */
  lemma {:induction false} SetDuringRun(calls: seq<Call>, id: nat, time: nat, prio: nat, limit: nat)
    ensures var f, g, c := Final(START, calls, limit), Final(START, calls + [Set(id, time, prio)], limit), Ticks(calls);
      if time <= c then
        && Log(START, calls + [Set(id, time, prio)], limit) == Log(START, calls, limit) + [AtOnce(c, Action(id, prio))]
        && g == f
      else
        && Log(START, calls + [Set(id, time, prio)], limit) == Log(START, calls, limit)
        && Arm(id, time, prio) in g.armed && id !in Ids(g.q)
  {
    hide Log, Final;
    ClockIs(START, calls, limit);
    OneMore(START, calls, Set(id, time, prio), limit);
    NeverTwice(calls, limit);
    var f := Final(START, calls, limit);
    MinusIds(f.q, id);
    assert Log(START, calls, limit) + [] == Log(START, calls, limit);
  }

  lemma {:induction false} OfIdAppend(a: seq<Event>, b: seq<Event>, id: nat)
    ensures OfId(a + b, id) == OfId(a, id) + OfId(b, id)
  {
    if a == [] {
      assert a + b == b;
    } else {
      OfIdAppend(a[1..], b, id);
      assert (a + b)[0] == a[0] && (a + b)[1..] == a[1..] + b;
      Assoc(if a[0].action.id == id then [a[0]] else [], OfId(a[1..], id), OfId(b, id));
    }
  }

  lemma {:induction false} OfIdNone(log: seq<Event>, id: nat)
    requires forall k :: 0 <= k < |log| ==> log[k].action.id != id
    ensures OfId(log, id) == []
  {
    if log != [] { OfIdNone(log[1..], id); }
  }

  lemma {:induction false} OfIdOne(log: seq<Event>, id: nat, k: int)
    requires 0 <= k < |log| && log[k].action.id == id
    requires forall j :: 0 <= j < |log| && j != k ==> log[j].action.id != id
    ensures OfId(log, id) == [log[k]]
  {
    if k > 0 {
      OfIdOne(log[1..], id, k - 1);
    } else {
      OfIdNone(log[1..], id);
    }
  }

  /** The timers armed for a tick. */
  lemma {:induction false} BatchIds(armed: seq<Arm>, t: nat)
    requires UniqueArms(armed)
    ensures var s := ArmedFor(armed, t);
      && UniqueIds(s) && UniqueIds(PutAll([], s)) && Ids(PutAll([], s)) == Ids(s)
      && forall id :: id in Ids(s) <==> exists a :: a in armed && a.time == t && a.id == id
  {
    hide ArmedFor, PutAll;
    var s := ArmedFor(armed, t);
    ArmedMembers(armed, t);
    BatchUnique(s);
    PutAllIds([], s);
    assert Ids([]) == {};
    forall id ensures id in Ids(s) <==> exists a :: a in armed && a.time == t && a.id == id {
      if id in Ids(s) {
        var k :| 0 <= k < |s| && s[k].id == id;
        assert s[k] in s;
        var a :| a in armed && a.time == t && ActionOf(a) == s[k];
      }
      if a :| a in armed && a.time == t && a.id == id {
        var x := ActionOf(a);
        assert x in s;
        var k :| 0 <= k < |s| && s[k] == x;
        assert s[k].id == id;
      }
    }
  }

  /** Every call keeps the stage consistent. */
  lemma {:induction false} StaysConsistent(s: Stage, c: Call, limit: nat)
    requires Consistent(s)
    ensures Consistent(After(s, c, limit))
  {
    hide WithoutId, WithoutTime, PutAll, ArmedFor, Minus, Ready, Ids, UniqueIds, Sorted, UniqueArms;
    match c
    case Set(id, time, prio) => if time > s.now { Rearmed(s, id, time, prio); }
    case Delete(id) =>
      WithoutIdMembers(s.armed, id);
      MinusIds(s.q, id);
      MinusSorted(s.q, id);
    case Clock =>
      WithoutTimeMembers(s.armed, s.now + 1);
      BatchIds(s.armed, s.now + 1);
      OtherIds(s);
      PutAllUnique(s.q, ArmedFor(s.armed, s.now + 1));
      PutAllSorted(s.q, ArmedFor(s.armed, s.now + 1));
    case Execute(priority) =>
      Suffix(s.q, Ready(s.q, priority, limit));
      SortedTail(s.q, Ready(s.q, priority, limit));
  }

  lemma {:induction false} Rearmed(s: Stage, id: nat, time: nat, prio: nat)
    requires Consistent(s) && time > s.now
    ensures Consistent(Stage(WithoutId(s.armed, id) + [Arm(id, time, prio)], s.now, Minus(s.q, id)))
  {
    hide WithoutId, Minus, UniqueIds, Sorted;
    WithoutIdMembers(s.armed, id);
    MinusIds(s.q, id);
    MinusSorted(s.q, id);
    var w := WithoutId(s.armed, id);
    var r := w + [Arm(id, time, prio)];
    forall k | 0 <= k < |w| ensures w[k].id != id { assert w[k] in w; }
    assert forall a :: a in r <==> a in w || a == Arm(id, time, prio);
  }

  /** Timers armed for the next tick are not queued, and no other armed timer has the id of one. */
  lemma {:induction false} OtherIds(s: Stage)
    requires Consistent(s)
    ensures Ids(ArmedFor(s.armed, s.now + 1)) !! Ids(s.q)
    ensures forall a :: a in s.armed && a.time != s.now + 1 ==> a.id !in Ids(ArmedFor(s.armed, s.now + 1))
  {
    hide ArmedFor, UniqueIds, Sorted, Ids;
    BatchIds(s.armed, s.now + 1);
    forall a | a in s.armed && a.time != s.now + 1 ensures a.id !in Ids(ArmedFor(s.armed, s.now + 1)) {
      if a.id in Ids(ArmedFor(s.armed, s.now + 1)) {
        var b :| b in s.armed && b.time == s.now + 1 && b.id == a.id;
        OneArm(s.armed, a, b);
      }
    }
  }

  lemma {:induction false} OneArm(armed: seq<Arm>, a: Arm, b: Arm)
    requires UniqueArms(armed) && a in armed && b in armed
    ensures a != b ==> a.id != b.id
  {
    var i :| 0 <= i < |armed| && armed[i] == a;
    var j :| 0 <= j < |armed| && armed[j] == b;
  }

  lemma {:induction false} SortedTail(q: seq<Action>, n: nat)
    requires Sorted(q) && n <= |q|
    ensures Sorted(q[n..])
  {
  }

  /** In every run, no timer is queued twice or queued while it is armed. */
  lemma {:induction false} NeverTwice(calls: seq<Call>, limit: nat)
    ensures Consistent(Final(START, calls, limit))
  {
    assert Ids([]) == {};
    AllConsistent(START, calls, limit);
  }

  lemma {:induction false} AllConsistent(s: Stage, calls: seq<Call>, limit: nat)
    requires Consistent(s)
    ensures Consistent(Final(s, calls, limit))
    decreases |calls|
  {
    hide After, Consistent;
    if calls != [] {
      StaysConsistent(s, calls[0], limit);
      AllConsistent(After(s, calls[0], limit), calls[1..], limit);
    }
  }

  /** A timer that is neither armed nor queued. */
  ghost predicate Quiet(s: Stage, id: nat) { !IsArmedIn(s, id) && id !in Ids(s.q) }

  /** Whom a call that does not touch a timer leaves how. */
  lemma {:induction false} Untouched(s: Stage, c: Call, limit: nat, id: nat)
    requires Consistent(s) && Leaves(c, id)
    ensures forall a: Arm :: a.id == id ==>
      (a in After(s, c, limit).armed <==> a in s.armed && (c.Clock? ==> a.time != s.now + 1))
    ensures id in Ids(After(s, c, limit).q) <==>
      (id in Ids(s.q) && (c.Execute? ==> id !in Ids(s.q[..Ready(s.q, c.priority, limit)])))
      || (c.Clock? && exists a :: a in s.armed && a.time == s.now + 1 && a.id == id)
  {
    hide WithoutId, WithoutTime, PutAll, ArmedFor, Minus, Ready, Ids, UniqueIds, Sorted, UniqueArms;
    match c
    case Set(x, time, prio) =>
      WithoutIdMembers(s.armed, x);
      MinusIds(s.q, x);
      var w, last := WithoutId(s.armed, x), Arm(x, time, prio);
      assert forall a :: a in w + [last] <==> a in w || a == last;
    case Delete(x) =>
      WithoutIdMembers(s.armed, x);
      MinusIds(s.q, x);
    case Clock =>
      WithoutTimeMembers(s.armed, s.now + 1);
      BatchIds(s.armed, s.now + 1);
      PutAllIds(s.q, ArmedFor(s.armed, s.now + 1));
    case Execute(priority) =>
      Suffix(s.q, Ready(s.q, priority, limit));
  }

  /** What can be seen of a timer that the call does not touch. */
  lemma {:induction false} SeenOf(s: Stage, c: Call, limit: nat, id: nat)
    requires Consistent(s) && Leaves(c, id)
    ensures !c.Clock? && !c.Execute? ==> OfId(EventsOf(s, c, limit), id) == []
    ensures c.Clock? && (forall a :: a in s.armed && a.time == s.now + 1 ==> a.id != id) ==>
      OfId(EventsOf(s, c, limit), id) == []
    ensures c.Clock? ==> forall a :: a in s.armed && a.time == s.now + 1 && a.id == id ==>
      OfId(EventsOf(s, c, limit), id) == [HandedOver(a.time, ActionOf(a))]
    ensures c.Execute? && id !in Ids(s.q[..Ready(s.q, c.priority, limit)]) ==> OfId(EventsOf(s, c, limit), id) == []
    ensures c.Execute? ==> forall k :: 0 <= k < Ready(s.q, c.priority, limit) && s.q[k].id == id ==>
      OfId(EventsOf(s, c, limit), id) == [Executed(s.now, s.q[k])]
  {
    hide PutAll, ArmedFor, Ready, UniqueArms, Sorted, OfId;
    match c
    case Set(x, time, prio) => OfIdNone(EventsOf(s, c, limit), id);
    case Delete(_) => OfIdNone([], id);
    case Clock => SeenOnTick(s, limit, id);
    case Execute(priority) =>
      var log, n := EventsOf(s, c, limit), Ready(s.q, priority, limit);
      if id !in Ids(s.q[..n]) {
        forall k | 0 <= k < |log| ensures log[k].action.id != id { assert s.q[..n][k].id in Ids(s.q[..n]); }
        OfIdNone(log, id);
      }
      forall k | 0 <= k < n && s.q[k].id == id ensures OfId(log, id) == [Executed(s.now, s.q[k])] {
        OfIdOne(log, id, k);
      }
  }

  lemma {:induction false} SeenOnTick(s: Stage, limit: nat, id: nat)
    requires Consistent(s)
    ensures (forall a :: a in s.armed && a.time == s.now + 1 ==> a.id != id) ==>
      OfId(EventsOf(s, Clock, limit), id) == []
    ensures forall a :: a in s.armed && a.time == s.now + 1 && a.id == id ==>
      OfId(EventsOf(s, Clock, limit), id) == [HandedOver(a.time, ActionOf(a))]
  {
    hide PutAll, ArmedFor, Ready, UniqueArms, Sorted, OfId;
    var b, log := PutAll([], ArmedFor(s.armed, s.now + 1)), EventsOf(s, Clock, limit);
    BatchIds(s.armed, s.now + 1);
    ArmedMembers(s.armed, s.now + 1);
    BatchUnique(ArmedFor(s.armed, s.now + 1));
    if forall a :: a in s.armed && a.time == s.now + 1 ==> a.id != id {
      forall k | 0 <= k < |log| ensures log[k].action.id != id { assert b[k].id in Ids(b); }
      OfIdNone(log, id);
    }
    forall a | a in s.armed && a.time == s.now + 1 && a.id == id
      ensures OfId(log, id) == [HandedOver(a.time, ActionOf(a))]
    {
      var x := ActionOf(a);
      assert x in ArmedFor(s.armed, s.now + 1) && x in b;
      var k :| 0 <= k < |b| && b[k] == x;
      OfIdOne(log, id, k);
    }
  }

  /** A timer that is neither armed nor queued, and not set, is not heard of. */
  lemma {:induction false} StaysQuiet(s: Stage, calls: seq<Call>, limit: nat, id: nat)
    requires Consistent(s) && Quiet(s, id) && forall i :: 0 <= i < |calls| ==> !(calls[i].Set? && calls[i].id == id)
    ensures OfId(Log(s, calls, limit), id) == []
    decreases |calls|
  {
    hide After, EventsOf, OfId, Consistent;
    OfIdNone([], id);
    if calls != [] {
      var c, t := calls[0], After(s, calls[0], limit);
      StaysConsistent(s, c, limit);
      QuietStep(s, c, limit, id);
      StaysQuiet(t, calls[1..], limit, id);
      OfIdAppend(EventsOf(s, c, limit), Log(t, calls[1..], limit), id);
    }
  }

  lemma {:induction false} QuietStep(s: Stage, c: Call, limit: nat, id: nat)
    requires Consistent(s) && Quiet(s, id) && !(c.Set? && c.id == id)
    ensures Quiet(After(s, c, limit), id) && OfId(EventsOf(s, c, limit), id) == []
  {
    hide WithoutTime, PutAll, ArmedFor, Ready, OfId, Stamped, Ids, UniqueIds, Sorted, UniqueArms;
    if c.Delete? && c.id == id {
      DeletedQuiet(s, limit, id);
      OfIdNone([], id);
    } else {
      Untouched(s, c, limit, id);
      SeenOf(s, c, limit, id);
      if c.Execute? { PrefixIds(s.q, Ready(s.q, c.priority, limit)); }
    }
  }

  lemma {:induction false} PrefixIds(q: seq<Action>, n: nat)
    requires n <= |q|
    ensures Ids(q[..n]) <= Ids(q)
  {
    assert q == q[..n] + q[n..];
    IdsAppend(q[..n], q[n..]);
  }

  lemma {:induction false} DeletedQuiet(s: Stage, limit: nat, id: nat)
    requires Consistent(s)
    ensures Quiet(After(s, Delete(id), limit), id)
  {
    hide WithoutId, Minus, Ids, UniqueIds, Sorted;
    WithoutIdMembers(s.armed, id);
    MinusIds(s.q, id);
  }

  /** A deleted timer, armed or waiting in the queue, is neither handed over nor executed until it is set again. */
  lemma {:induction false} DeletedUntilSet(before: seq<Call>, calls: seq<Call>, limit: nat, id: nat)
    requires forall i :: 0 <= i < |calls| ==> !(calls[i].Set? && calls[i].id == id)
    ensures OfId(Log(Final(START, before, limit), [Delete(id)] + calls, limit), id) == []
  {
    hide After, EventsOf, OfId, Consistent, Quiet;
    var s := Final(START, before, limit);
    NeverTwice(before, limit);
    DeletedQuiet(s, limit, id);
    StaysConsistent(s, Delete(id), limit);
    StaysQuiet(After(s, Delete(id), limit), calls, limit, id);
    assert ([Delete(id)] + calls)[1..] == calls;
    DeleteSilent(s, limit, id);
    OfIdAppend(EventsOf(s, Delete(id), limit), Log(After(s, Delete(id), limit), calls, limit), id);
  }

  lemma {:induction false} DeleteSilent(s: Stage, limit: nat, id: nat)
    ensures OfId(EventsOf(s, Delete(id), limit), id) == []
  {
  }

  /** What is heard of a queued timer that nobody touches: nothing while it waits, else its one execution. */
  lemma {:induction false} QueuedOnce(s: Stage, calls: seq<Call>, limit: nat, a: Action) returns (t: nat)
    requires Consistent(s) && a in s.q && forall i :: 0 <= i < |calls| ==> Leaves(calls[i], a.id)
    ensures t >= s.now
    ensures OfId(Log(s, calls, limit), a.id) == if a.id in Ids(Final(s, calls, limit).q) then [] else [Executed(t, a)]
    decreases |calls|
  {
    hide After, EventsOf, OfId, Consistent, Ids;
    t := s.now;
    OfIdNone([], a.id);
    InQueue(s.q, a);
    if calls != [] {
      var c, s' := calls[0], After(s, calls[0], limit);
      StaysConsistent(s, c, limit);
      QueuedStep(s, c, limit, a);
      OfIdAppend(EventsOf(s, c, limit), Log(s', calls[1..], limit), a.id);
      if a in s'.q {
        t := QueuedOnce(s', calls[1..], limit, a);
      } else {
        StaysQuiet(s', calls[1..], limit, a.id);
        FinalQuiet(s', calls[1..], limit, a.id);
      }
    }
  }

  lemma {:induction false} InQueue(q: seq<Action>, a: Action)
    requires a in q
    ensures a.id in Ids(q)
  {
    var k :| 0 <= k < |q| && q[k] == a;
  }

  lemma {:induction false} QueuedStep(s: Stage, c: Call, limit: nat, a: Action)
    requires Consistent(s) && a in s.q && Leaves(c, a.id)
    ensures var s', seen := After(s, c, limit), OfId(EventsOf(s, c, limit), a.id);
      && s'.now >= s.now && !IsArmedIn(s', a.id)
      && if a in s'.q then seen == [] else seen == [Executed(s.now, a)] && a.id !in Ids(s'.q)
  {
    hide WithoutId, WithoutTime, PutAll, ArmedFor, Minus, Ready, OfId, Stamped, Sorted, UniqueArms, UniqueIds, Ids;
    InQueue(s.q, a);
    Untouched(s, c, limit, a.id);
    SeenOf(s, c, limit, a.id);
    match c
    case Set(x, time, prio) => MinusMember(s.q, x, a);
    case Delete(x) => MinusMember(s.q, x, a);
    case Clock => StaysIn(s.q, ArmedFor(s.armed, s.now + 1), a);
    case Execute(priority) => FrontOrBack(s.q, Ready(s.q, priority, limit), a);
  }

  lemma {:induction false} StaysIn(q: seq<Action>, b: seq<Action>, a: Action)
    requires Sorted(q) && (a in q || a in b)
    ensures a in PutAll(q, b)
  {
    hide PutAll, Sorted;
    PutAllSorted(q, b);
    assert a in multiset(q) || a in multiset(b);
    assert a in multiset(PutAll(q, b));
  }

  /** An action is either executed now or still queued. */
  lemma {:induction false} FrontOrBack(q: seq<Action>, n: nat, a: Action)
    requires UniqueIds(q) && n <= |q| && a in q
    ensures if a in q[n..] then a.id !in Ids(q[..n]) else a.id !in Ids(q[n..]) && exists k :: 0 <= k < n && q[k] == a
  {
    var k :| 0 <= k < |q| && q[k] == a;
    if k >= n { assert q[n..][k - n] == a; }
  }

  lemma {:induction false} FinalQuiet(s: Stage, calls: seq<Call>, limit: nat, id: nat)
    requires Consistent(s) && Quiet(s, id) && forall i :: 0 <= i < |calls| ==> !(calls[i].Set? && calls[i].id == id)
    ensures id !in Ids(Final(s, calls, limit).q)
    decreases |calls|
  {
    hide After, EventsOf, OfId, Consistent;
    if calls != [] {
      StaysConsistent(s, calls[0], limit);
      QuietStep(s, calls[0], limit, id);
      FinalQuiet(After(s, calls[0], limit), calls[1..], limit, id);
    }
  }

  /**
   An armed timer that nobody sets or deletes is handed over exactly once, at its
   tick; from then on it waits in the queue or has been executed exactly once.
   */
  lemma {:induction false} ExactlyOnce(s: Stage, calls: seq<Call>, limit: nat, a: Arm) returns (t: nat)
    requires Consistent(s) && a in s.armed && forall i :: 0 <= i < |calls| ==> Leaves(calls[i], a.id)
    ensures t >= a.time
    ensures OfId(Log(s, calls, limit), a.id) == (
      if s.now + Ticks(calls) < a.time then []
      else if a.id in Ids(Final(s, calls, limit).q) then [HandedOver(a.time, ActionOf(a))]
      else [HandedOver(a.time, ActionOf(a)), Executed(t, ActionOf(a))])
    decreases |calls|
  {
    hide After, EventsOf, OfId, Consistent, Ids;
    t := a.time;
    OfIdNone([], a.id);
    ArmedLater(s, a);
    if calls != [] {
      var c, s' := calls[0], After(s, calls[0], limit);
      StaysConsistent(s, c, limit);
      ArmedStep(s, c, limit, a);
      OfIdAppend(EventsOf(s, c, limit), Log(s', calls[1..], limit), a.id);
      if a in s'.armed {
        t := ExactlyOnce(s', calls[1..], limit, a);
      } else {
        t := QueuedOnce(s', calls[1..], limit, ActionOf(a));
      }
    }
  }

  lemma {:induction false} ArmedLater(s: Stage, a: Arm)
    requires Consistent(s) && a in s.armed
    ensures a.time > s.now
  {
  }

  lemma {:induction false} ArmedStep(s: Stage, c: Call, limit: nat, a: Arm)
    requires Consistent(s) && a in s.armed && Leaves(c, a.id)
    ensures var s', seen := After(s, c, limit), OfId(EventsOf(s, c, limit), a.id);
      && s'.now == s.now + (if c.Clock? then 1 else 0)
      && if a in s'.armed then seen == []
         else s'.now == a.time && ActionOf(a) in s'.q && seen == [HandedOver(a.time, ActionOf(a))]
  {
    hide WithoutId, WithoutTime, PutAll, ArmedFor, Minus, Ready, OfId, Stamped, Sorted, UniqueIds, Ids;
    Untouched(s, c, limit, a.id);
    SeenOf(s, c, limit, a.id);
    if c.Clock? {
      if a.time == s.now + 1 {
        ArmedMembers(s.armed, s.now + 1);
        var x := ActionOf(a);
        assert x in ArmedFor(s.armed, s.now + 1);
        StaysIn(s.q, ArmedFor(s.armed, s.now + 1), x);
      } else {
        forall b | b in s.armed && b.time == s.now + 1 ensures b.id != a.id { OneArm(s.armed, a, b); }
      }
    } else if c.Execute? {
      PrefixIds(s.q, Ready(s.q, c.priority, limit));
    }
  }

  /** A task that stops before the limit leaves nothing behind that is as urgent as itself. */
  lemma {:induction false} Served(s: Stage, priority: nat, limit: nat, k: int)
    requires Consistent(s) && Ready(s.q, priority, limit) < limit
    ensures var q := After(s, Execute(priority), limit).q; 0 <= k < |q| ==> q[k].prio > priority
  {
    hide UniqueArms, UniqueIds, Ids;
    var n := Ready(s.q, priority, limit);
    if 0 <= k < |s.q| - n {
      StopsAt(s.q, priority, limit);
      assert s.q[n].prio <= s.q[n + k].prio;
    }
  }

  lemma {:induction false} StopsAt(q: seq<Action>, priority: nat, limit: nat)
    requires Ready(q, priority, limit) < limit && Ready(q, priority, limit) < |q|
    ensures q[Ready(q, priority, limit)].prio > priority
  {
    if q != [] && q[0].prio <= priority { StopsAt(q[1..], priority, limit - 1); }
  }

  /** The call as the source makes it: a new time disarms first, a time that is over arms nothing. */
  method ModifyTimer(timers: Timers, id: nat, time: nat, prio: nat) returns (executed: bool)
    requires timers.Valid() && UniqueIds(timers.queue.Queue()) && FromTimers(timers)
    modifies timers, timers.queue`pending
    ensures timers.Valid() && timers.now == old(timers.now) && executed == (time <= timers.now)
    ensures timers.armed ==
      old(if time <= timers.now then timers.armed else WithoutId(timers.armed, id) + [Arm(id, time, prio)])
    ensures timers.queue.Queue() ==
      old(if time <= timers.now then timers.queue.Queue() else Minus(timers.queue.Queue(), id))
    ensures FromTimers(timers)
  {
    hide Shows, Pending, Hung, Counted, Alive, Flat, Proper, WithoutId, Tied, UniqueIds, Minus;
    if time <= timers.now { return true; }
    if id in timers.attached {
      Disconnect(timers, id);
    } else {
      NotArmed(timers.attached, timers.now, timers.armed, id);
      NotQueued(timers, id);
    }
    timers.Init(id, time);
    var r;
    r, executed := timers.AddTimer(id, time, prio);
  }

  /** Everything queued comes from a timer that is attached and has fired. */
  ghost predicate FromTimers(timers: Timers)
    reads timers, timers.queue
  {
    forall k :: 0 <= k < |timers.queue.Queue()| ==>
      timers.queue.Queue()[k].id in timers.attached && timers.attached[timers.queue.Queue()[k].id].time <= timers.now
  }

  lemma {:induction false} NotQueued(timers: Timers, id: nat)
    requires FromTimers(timers) && (id in timers.attached ==> timers.attached[id].time > timers.now)
    ensures Minus(timers.queue.Queue(), id) == timers.queue.Queue()
    ensures forall k :: 0 <= k < |timers.queue.Queue()| ==> timers.queue.Queue()[k].id != id
  {
    hide Minus;
    MinusNone(timers.queue.Queue(), id);
  }

  /** Deletes a timer wherever it is: armed, waiting in the queue, or neither. */
  method Disconnect(timers: Timers, id: nat)
    requires timers.Valid() && UniqueIds(timers.queue.Queue()) && FromTimers(timers)
    modifies timers, timers.queue`pending
    ensures timers.Valid() && timers.now == old(timers.now) && timers.attached == old(timers.attached) - {id}
    ensures timers.armed == WithoutId(old(timers.armed), id)
    ensures timers.queue.Queue() == Minus(old(timers.queue.Queue()), id)
    ensures FromTimers(timers)
  {
    hide Shows, Pending, Hung, Counted, Alive, Flat, Proper, WithoutId, Tied, Minus;
    ghost var q := timers.queue.Queue();
    if id !in timers.attached || timers.attached[id].time > timers.now { NotQueued(timers, id); }
    ghost var fired := id in timers.attached && timers.attached[id].time <= timers.now;
    ghost var k := timers.DeleteTimer(id);
    if fired {
      if k >= 0 { MinusAt(q, k); } else { MinusNone(q, id); }
    }
    forall j | 0 <= j < |Minus(q, id)| ensures Minus(q, id)[j] in q && Minus(q, id)[j].id != id {
      MinusMember(q, id, Minus(q, id)[j]);
    }
  }

  /** The timers and their queue are at stage `s`. */
  ghost predicate At(timers: Timers, s: Stage)
    reads timers, timers.queue
  {
    && timers.Valid() && timers.queue.executers == 0 && timers.armed == s.armed && timers.now == s.now
    && timers.queue.Queue() == s.q && Consistent(s) && FromTimers(timers)
  }

  /** Every call does to the timers what it does to the stage. */
  method Step(timers: Timers, ghost s: Stage, c: Call, limit: nat) returns (events: seq<Event>)
    requires At(timers, s) && limit > 0
    modifies timers, timers.queue
    ensures At(timers, After(s, c, limit)) && events == EventsOf(s, c, limit)
  {
    hide Shows, Pending, Hung, Counted, Alive, Flat, Proper, WithoutId, WithoutTime, ArmedFor, PutAll, Tied, Minus;
    hide Ready, Sorted, UniqueArms, Owned, View;
    StaysConsistent(s, c, limit);
    events := [];
    match c {
      case Set(id, time, prio) =>
        var executed := ModifyTimer(timers, id, time, prio);
        if executed { events := [AtOnce(timers.now, Action(id, prio))]; }
      case Delete(id) =>
        Disconnect(timers, id);
      case Clock =>
        var handed := Tick(timers);
        events := Stamped(true, timers.now, handed);
      case Execute(priority) =>
        var fired := Serve(timers, priority, limit);
        events := Stamped(false, timers.now, fired);
    }
  }

  method Tick(timers: Timers) returns (handed: seq<Action>)
    requires timers.Valid() && FromTimers(timers)
    modifies timers, timers.queue`pending
    ensures timers.Valid() && FromTimers(timers) && timers.now == old(timers.now) + 1
    ensures timers.armed == WithoutTime(old(timers.armed), timers.now)
    ensures timers.queue.Queue() == PutAll(old(timers.queue.Queue()), ArmedFor(old(timers.armed), timers.now))
    ensures handed == PutAll([], ArmedFor(old(timers.armed), timers.now))
  {
    hide Shows, Hung, Counted, Alive, Flat, Proper, WithoutTime, ArmedFor, PutAll, Tied, Owned, View, Pending;
    ghost var q, armed, now, attached := timers.queue.Queue(), timers.armed, timers.now, timers.attached;
    handed := timers.ProcessTick();
    forall k | 0 <= k < |timers.queue.Queue()|
      ensures timers.queue.Queue()[k].id in attached && attached[timers.queue.Queue()[k].id].time <= now + 1
    {
      QueuedFrom(q, armed, attached, now, timers.queue.Queue()[k]);
    }
  }

  lemma {:induction false} QueuedFrom(q: seq<Action>, armed: seq<Arm>, attached: map<nat, Timer>, now: nat, x: Action)
    requires Pending(attached, now, armed) && x in PutAll(q, ArmedFor(armed, now + 1))
    requires forall k :: 0 <= k < |q| ==> q[k].id in attached && attached[q[k].id].time <= now
    ensures x.id in attached && attached[x.id].time <= now + 1
  {
    hide PutAll, ArmedFor;
    var b := ArmedFor(armed, now + 1);
    PutAllFrom(q, b, x);
    ArmedMembers(armed, now + 1);
    if x in b {
      var a :| a in armed && a.time == now + 1 && ActionOf(a) == x;
      assert IsArmed(attached, now, a);
    }
  }

  lemma {:induction false} PutAllFrom(q: seq<Action>, b: seq<Action>, x: Action)
    requires x in PutAll(q, b)
    ensures x in q || x in b
    decreases |b|
  {
    if b != [] {
      PutAllFrom(Put(q, b[0]), b[1..], x);
      if x in Put(q, b[0]) {
        PutMembers(q, b[0]);
        assert x in multiset(Put(q, b[0]));
      }
    }
  }

  method Serve(timers: Timers, priority: nat, limit: nat) returns (fired: seq<Action>)
    requires timers.Valid() && FromTimers(timers) && timers.queue.executers == 0 && limit > 0
    modifies timers.queue
    ensures timers.Valid() && FromTimers(timers) && timers.queue.executers == 0
    ensures var q, n := old(timers.queue.Queue()), Ready(old(timers.queue.Queue()), priority, limit);
      fired == q[..n] && timers.queue.Queue() == q[n..]
  {
    hide Shows, Hung, Counted, Alive, Flat, Proper, Tied, Owned, View, Pending, Ready;
    ghost var q := timers.queue.Queue();
    fired := timers.queue.Fire(priority, limit);
    assert q[..|fired|] == fired && q[|fired|..] == timers.queue.Queue();
    if |fired| < limit && |fired| < |q| { assert q[|fired|] == timers.queue.Queue()[0]; }
    FiredReady(q, |fired|, priority, limit);
  }

  /** Every run of calls, ticks and executions does exactly what the log says. */
  method Run(g: nat, limit: nat, calls: seq<Call>) returns (log: seq<Event>)
    requires Granular(g) && limit > 0
    ensures log == Log(START, calls, limit)
  {
    hide Shows, Pending, Hung, Counted, Alive, Flat, Proper, Tied, Log, After, EventsOf, Consistent, View;
    var timers := new Timers(g);
    log := [];
    var i := 0;
    ghost var s := START;
    assert Consistent(s) by { NeverTwice([], limit); Begin(limit); }
    assert calls[0..] == calls;
    while i < |calls|
      invariant 0 <= i <= |calls| && fresh(timers) && fresh(timers.queue) && At(timers, s)
      invariant log + Log(s, calls[i..], limit) == Log(START, calls, limit)
    {
      LogStep(s, calls, i, limit, log);
      var events := Step(timers, s, calls[i], limit);
      s := After(s, calls[i], limit);
      log := log + events;
      i := i + 1;
    }
    LogEnd(s, calls, limit, log);
  }

  lemma {:induction false} Begin(limit: nat)
    ensures Final(START, [], limit) == START
  {
  }

  lemma {:induction false} LogStep(s: Stage, calls: seq<Call>, i: int, limit: nat, log: seq<Event>)
    requires 0 <= i < |calls|
    ensures log + Log(s, calls[i..], limit)
      == (log + EventsOf(s, calls[i], limit)) + Log(After(s, calls[i], limit), calls[i + 1..], limit)
  {
    hide EventsOf, After;
    assert calls[i..][0] == calls[i] && calls[i..][1..] == calls[i + 1..];
    Assoc(log, EventsOf(s, calls[i], limit), Log(After(s, calls[i], limit), calls[i + 1..], limit));
  }

  lemma {:induction false} LogEnd(s: Stage, calls: seq<Call>, limit: nat, log: seq<Event>)
    ensures log + Log(s, calls[|calls|..], limit) == log
  {
    assert calls[|calls|..] == [] && log + [] == log;
  }
}
